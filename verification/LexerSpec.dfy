/**
 What scanning a source text yields, and the declarative reading of it: a token list is the lexing of a
 text exactly when it is `Faithful` to it.
 */
module LexerSpec {
  import opened Outcomes
  import opened Tokens

  // ---------------------------------------------------------------------------------------------
  // Scanning as a function of the source offset
  // ---------------------------------------------------------------------------------------------

  datatype Scan =
    | Skip(next: nat)
    | Emit(symbol: Symbol, next: nat)
    | Fail(error: LexError)

  predicate Ahead(src: string, i: nat, c: char) {
    i < |src| && src[i] == c
  }

  /** End of the numeral that starts at `i`: digits, then a point only when a digit follows it. */
  function NumeralEnd(src: string, i: nat): (e: nat)
    requires i < |src| && IsDigit(src[i])
    ensures i < e <= |src|
  {
    var e := SpanEnd(src, i, IsDigit);
    if Ahead(src, e, '.') && e + 1 < |src| && IsDigit(src[e + 1]) then SpanEnd(src, e + 1, IsDigit) else e
  }

  function EscapeFault(src: string, j: nat): LexError
    requires j < |src|
  {
    if j + 1 == |src| then LexError(UnsupportedEscape(""), PositionAt(src, j + 1))
    else if src[j + 1] == '\n' then LexError(UnsupportedEscape("\n"), PositionAt(src, j))
    else LexError(UnsupportedEscape([src[j + 1]]), PositionAt(src, j + 1))
  }

  /** Offset of the quote that closes the string opened at `start`, looked for from `j` on. */
  function ClosingQuote(src: string, start: nat, j: nat): (r: Result<nat, LexError>)
    requires start < j <= |src|
    ensures r.Ok? ==> j <= r.value < |src| && src[r.value] == '"'
    decreases |src| - j
  {
    if j == |src| then Err(LexError(UnterminatedString, PositionAt(src, start)))
    else if src[j] == '"' then Ok(j)
    else if src[j] == '\\' then
      if j + 1 < |src| && Unescaped(src[j + 1]).Some? then ClosingQuote(src, start, j + 2)
      else Err(EscapeFault(src, j))
    else ClosingQuote(src, start, j + 1)
  }

  /** The string between two quotes stands for `Decoded`: no bare quote, only the five escapes. */
  function Decoded(body: string): Option<string> {
    if body == "" then Some("")
    else if body[0] == '"' then None
    else if body[0] == '\\' then
      if |body| >= 2 && Unescaped(body[1]).Some? then
        var rest :- Decoded(body[2..]);
        Some([Unescaped(body[1]).value] + rest)
      else None
    else
      var rest :- Decoded(body[1..]);
      Some([body[0]] + rest)
  }

  function ScanString(src: string, i: nat): (r: Scan)
    requires i < |src|
    ensures !r.Skip?
    ensures r.Emit? ==> i < r.next <= |src| && r.symbol.lexeme == src[i..r.next] && r.symbol.kind == String
  {
    match ClosingQuote(src, i, i + 1)
    case Ok(e) => Emit(Symbol(String, src[i..e + 1], Text(Decoded(src[i + 1..e]).GetOr(""))), e + 1)
    case Err(error) => Fail(error)
  }

  /** One step of the scanner at offset `i`. */
  function ScanOne(src: string, i: nat): (r: Scan)
    requires i < |src|
    ensures r.Skip? ==> i < r.next <= |src|
    ensures r.Emit? ==> i < r.next <= |src| && r.symbol.lexeme == src[i..r.next] && r.symbol.kind != Eof
  {
    var c := src[i];
    if PunctuationKind(c).Some? then Emit(Symbol(PunctuationKind(c).value, src[i..i + 1], NoLiteral), i + 1)
    else if c == '-' then
      if Ahead(src, i + 1, '>') then Emit(Symbol(Arrow, src[i..i + 2], NoLiteral), i + 2)
      else Fail(LexError(StrayDash, PositionAt(src, i)))
    else if IsBlank(c) then Skip(i + 1)
    else if c == '/' then
      if Ahead(src, i + 1, '/') then Skip(SpanEnd(src, i + 2, NotNewline))
      else Fail(LexError(StraySlash, PositionAt(src, i)))
    else if c == '"' then ScanString(src, i)
    else if IsDigit(c) then
      var e := NumeralEnd(src, i);
      Emit(Symbol(Number, src[i..e], Digits(src[i..e])), e)
    else if IsAlpha(c) then
      var e := SpanEnd(src, i, IsAlphaNumeric);
      Emit(WordSymbol(src[i..e]), e)
    else Fail(LexError(UnexpectedCharacter(c), PositionAt(src, i)))
  }

  function TokenAt(src: string, i: nat, symbol: Symbol): Token
    requires i <= |src|
  {
    Token(symbol, LineAt(src, i), ColumnAt(src, i), i)
  }

  function EofAt(src: string): Token {
    TokenAt(src, |src|, Symbol(Eof, "", NoLiteral))
  }

  function Prepend<T, E>(front: seq<T>, r: Result<seq<T>, E>): Result<seq<T>, E> {
    if r.Ok? then Ok(front + r.value) else r
  }

  lemma PrependNothing<T, E>(r: Result<seq<T>, E>)
    ensures Prepend([], r) == r
  {
    if r.Ok? {
      assert [] + r.value == r.value;
    }
  }

  function LexFrom(src: string, i: nat): (r: Result<seq<Token>, LexError>)
    requires i <= |src|
    decreases |src| - i
  {
    if i == |src| then Ok([EofAt(src)])
    else
      match ScanOne(src, i)
      case Skip(next) => LexFrom(src, next)
      case Emit(symbol, next) => Prepend([TokenAt(src, i, symbol)], LexFrom(src, next))
      case Fail(error) => Err(error)
  }

  function Lex(src: string): Result<seq<Token>, LexError> {
    LexFrom(src, 0)
  }

  // ---------------------------------------------------------------------------------------------
  // The declarative reading
  // ---------------------------------------------------------------------------------------------

  predicate IsWord(w: string) {
    w != "" && IsAlpha(w[0]) && forall k :: 0 <= k < |w| ==> IsAlphaNumeric(w[k])
  }

  predicate AllDigits(w: string) {
    w != "" && forall k :: 0 <= k < |w| ==> IsDigit(w[k])
  }

  /** Digits, or digits, a point and digits. */
  predicate IsNumeral(w: string) {
    var k := SpanEnd(w, 0, IsDigit);
    k > 0 && (k == |w| || (w[k] == '.' && AllDigits(w[k + 1..])))
  }

  predicate IsQuoted(w: string, text: string) {
    |w| >= 2 && w[0] == '"' && w[|w| - 1] == '"' && Decoded(w[1..|w| - 1]) == Some(text)
  }

  /** Kind, lexeme and literal of a token agree. */
  predicate WellShaped(s: Symbol) {
    if s.kind == Arrow then s == Symbol(Arrow, "->", NoLiteral)
    else if s.kind == Number then IsNumeral(s.lexeme) && s.literal == Digits(s.lexeme)
    else if s.kind == String then s.literal.Text? && IsQuoted(s.lexeme, s.literal.text)
    else if IsWordKind(s.kind) then IsWord(s.lexeme) && s == WordSymbol(s.lexeme)
    else |s.lexeme| == 1 && PunctuationKind(s.lexeme[0]) == Some(s.kind) && s.literal == NoLiteral
  }

  /** The text from `e` on cannot lengthen the token `s` that ends there. */
  predicate StopsAt(src: string, e: nat, s: Symbol)
    requires e <= |src|
  {
    if s.kind == Number then
      && (e == |src| || !IsDigit(src[e]))
      && ('.' in s.lexeme || !(Ahead(src, e, '.') && e + 1 < |src| && IsDigit(src[e + 1])))
    else IsWordKind(s.kind) ==> e == |src| || !IsAlphaNumeric(src[e])
  }

  /** `src[a..b]` holds only blanks and line comments (a comment runs up to its newline or the end). */
  predicate Gap(src: string, a: nat, b: nat)
    requires a <= b <= |src|
    decreases b - a
  {
    a == b
    || (IsBlank(src[a]) && Gap(src, a + 1, b))
    || (a + 1 < b && src[a] == '/' && src[a + 1] == '/'
        && SpanEnd(src, a + 2, NotNewline) <= b
        && Gap(src, SpanEnd(src, a + 2, NotNewline), b))
  }

  predicate TokenFits(src: string, t: Token) {
    && t.End() <= |src|
    && t.symbol.lexeme == src[t.index..t.End()]
    && Position(t.line, t.column) == PositionAt(src, t.index)
    && WellShaped(t.symbol)
    && StopsAt(src, t.End(), t.symbol)
  }

  /** From offset `i` the text is made of gaps and the tokens `ts`, in order, then the end marker. */
  predicate FaithfulFrom(src: string, i: nat, ts: seq<Token>)
    requires i <= |src|
    decreases |ts|
  {
    && |ts| > 0
    && if |ts| == 1 then ts[0] == EofAt(src) && Gap(src, i, |src|)
       else
         && i <= ts[0].index <= ts[0].End() <= |src|
         && TokenFits(src, ts[0])
         && Gap(src, i, ts[0].index)
         && FaithfulFrom(src, ts[0].End(), ts[1..])
  }

  predicate Faithful(src: string, ts: seq<Token>) {
    FaithfulFrom(src, 0, ts)
  }

  // ---------------------------------------------------------------------------------------------
  // Scanning yields exactly the faithful token list
  // ---------------------------------------------------------------------------------------------

  lemma SliceOfSlice(src: string, i: nat, e: nat, a: nat, b: nat)
    requires i <= e <= |src| && a <= b <= e - i
    ensures src[i..e][a..b] == src[i + a..i + b]
  {
    var w := src[i..e];
    assert |w[a..b]| == |src[i + a..i + b]|;
    forall k | 0 <= k < b - a ensures w[a..b][k] == src[i + a..i + b][k] {
      assert w[a + k] == src[i + (a + k)];
    }
  }

  lemma {:induction false} ClosedStringDecodes(src: string, start: nat, j: nat)
    requires start < j <= |src| && ClosingQuote(src, start, j).Ok?
    ensures Decoded(src[j..ClosingQuote(src, start, j).value]).Some?
    decreases |src| - j
  {
    hide Unescaped;
    var e := ClosingQuote(src, start, j).value;
    var body := src[j..e];
    if j < e {
      var step := if src[j] == '\\' then 2 else 1;
      ClosedStringDecodes(src, start, j + step);
      SliceOfSlice(src, j, e, step, |body|);
    }
  }

  lemma {:induction false} DecodedCloses(src: string, start: nat, j: nat, e: nat)
    requires start < j <= e < |src| && src[e] == '"'
    requires Decoded(src[j..e]).Some?
    ensures ClosingQuote(src, start, j) == Ok(e)
    decreases e - j
  {
    hide Unescaped;
    var body := src[j..e];
    if j < e {
      var step := if src[j] == '\\' then 2 else 1;
      SliceOfSlice(src, j, e, step, |body|);
      DecodedCloses(src, start, j + step, e);
    }
  }

  /** A string token runs from its quote to the quote before `e` and means `text` exactly when what
      is between decodes to it. */
  lemma StringMeansDecoded(src: string, i: nat, e: nat, text: string)
    requires i + 1 < e <= |src| && src[i] == '"'
    ensures ScanOne(src, i) == Emit(Symbol(String, src[i..e], Text(text)), e) <==>
              src[e - 1] == '"' && Decoded(src[i + 1..e - 1]) == Some(text)
  {
    hide Decoded, ClosingQuote;
    var close := ClosingQuote(src, i, i + 1);
    if close.Ok? {
      ClosedStringDecodes(src, i, i + 1);
    }
    if src[e - 1] == '"' && Decoded(src[i + 1..e - 1]).Some? {
      DecodedCloses(src, i, i + 1, e - 1);
    }
  }

  lemma NumeralShape(src: string, i: nat)
    requires i < |src| && IsDigit(src[i])
    ensures var e := NumeralEnd(src, i);
            && IsNumeral(src[i..e])
            && StopsAt(src, e, Symbol(Number, src[i..e], Digits(src[i..e])))
  {
    var m := SpanEnd(src, i, IsDigit);
    var e := NumeralEnd(src, i);
    var w := src[i..e];
    SpanEndIs(w, 0, IsDigit, m - i);
    if m < e {
      assert w[m - i] == '.';
      assert w[m - i + 1..] == src[m + 1..e];
    }
  }

  lemma NumeralScans(src: string, i: nat, e: nat)
    requires i <= e <= |src|
    requires IsNumeral(src[i..e])
    requires StopsAt(src, e, Symbol(Number, src[i..e], Digits(src[i..e])))
    ensures i < e && IsDigit(src[i]) && NumeralEnd(src, i) == e
  {
    var w := src[i..e];
    var k := SpanEnd(w, 0, IsDigit);
    assert w[0] == src[i];
    forall x | i <= x < i + k ensures IsDigit(src[x]) { assert w[x - i] == src[x]; }
    if k == |w| {
      SpanEndIs(src, i, IsDigit, e);
      assert '.' !in w;
    } else {
      assert w[k] == src[i + k];
      SpanEndIs(src, i, IsDigit, i + k);
      forall x | i + k + 1 <= x < e ensures IsDigit(src[x]) { assert w[k + 1..][x - (i + k + 1)] == src[x]; }
      SpanEndIs(src, i + k + 1, IsDigit, e);
    }
  }

  lemma WordEmits(src: string, i: nat)
    requires i < |src| && IsAlpha(src[i])
    ensures var e := SpanEnd(src, i, IsAlphaNumeric);
            IsWord(src[i..e]) && (e == |src| || !IsAlphaNumeric(src[e]))
  {
    var e := SpanEnd(src, i, IsAlphaNumeric);
    assert src[i..e][0] == src[i];
  }

  lemma StringEmitFits(src: string, i: nat)
    requires i < |src| && src[i] == '"' && ScanOne(src, i).Emit?
    ensures TokenFits(src, TokenAt(src, i, ScanOne(src, i).symbol))
    ensures TokenAt(src, i, ScanOne(src, i).symbol).End() == ScanOne(src, i).next
  {
    hide WordSymbol, LineAt, ColumnAt, Decoded, NumeralEnd, IsNumeral;
    ClosedStringDecodes(src, i, i + 1);
    var e := ClosingQuote(src, i, i + 1).value;
    SliceOfSlice(src, i, e + 1, 1, e - i);
  }

  lemma EmitFits(src: string, i: nat)
    requires i < |src| && ScanOne(src, i).Emit?
    ensures TokenFits(src, TokenAt(src, i, ScanOne(src, i).symbol))
    ensures TokenAt(src, i, ScanOne(src, i).symbol).End() == ScanOne(src, i).next
  {
    hide WordSymbol, LineAt, ColumnAt, Decoded, NumeralEnd, IsNumeral;
    var c := src[i];
    if c == '"' {
      StringEmitFits(src, i);
    } else if IsDigit(c) {
      NumeralShape(src, i);
    } else if IsAlpha(c) {
      WordEmits(src, i);
    }
  }

  lemma WordFits(src: string, i: nat, e: nat)
    requires i <= e <= |src| && IsWord(src[i..e]) && (e == |src| || !IsAlphaNumeric(src[e]))
    ensures i < e && IsAlpha(src[i]) && SpanEnd(src, i, IsAlphaNumeric) == e
  {
    var w := src[i..e];
    assert w[0] == src[i];
    forall x | i <= x < e ensures IsAlphaNumeric(src[x]) { assert w[x - i] == src[x]; }
    SpanEndIs(src, i, IsAlphaNumeric, e);
  }

  lemma QuotedScans(src: string, i: nat, e: nat, text: string)
    requires i <= e <= |src| && IsQuoted(src[i..e], text)
    ensures i < |src| && src[i] == '"' && ScanString(src, i) == Emit(Symbol(String, src[i..e], Text(text)), e)
  {
    var w := src[i..e];
    assert w[0] == src[i] && w[|w| - 1] == src[e - 1];
    SliceOfSlice(src, i, e, 1, |w| - 1);
    DecodedCloses(src, i, i + 1, e - 1);
  }

  lemma FitsEmits(src: string, t: Token)
    requires TokenFits(src, t)
    ensures t.index < |src|
    ensures ScanOne(src, t.index) == Emit(t.symbol, t.End())
    ensures t == TokenAt(src, t.index, t.symbol)
  {
    hide WordSymbol, LineAt, ColumnAt, Decoded, NumeralEnd, IsNumeral, ScanString, IsQuoted, IsWord;
    var i, e := t.index, t.End();
    if t.symbol.kind == Number {
      assert src[i..e] == t.symbol.lexeme;
      NumeralScans(src, i, e);
    } else if t.symbol.kind == String {
      QuotedScans(src, i, e, t.symbol.literal.text);
    } else if IsWordKind(t.symbol.kind) {
      WordFits(src, i, e);
    } else {
      assert t.symbol.lexeme[0] == src[i];
      assert t.symbol.kind == Arrow ==> t.symbol.lexeme[1] == src[i + 1];
    }
  }

  lemma SkipIsGap(src: string, i: nat, b: nat)
    requires i < |src| && ScanOne(src, i).Skip?
    requires ScanOne(src, i).next <= b <= |src| && Gap(src, ScanOne(src, i).next, b)
    ensures Gap(src, i, b)
  {
  }

  lemma {:induction false} LexIsFaithful(src: string, i: nat)
    requires i <= |src|
    ensures LexFrom(src, i).Ok? ==> FaithfulFrom(src, i, LexFrom(src, i).value)
    decreases |src| - i
  {
    hide ScanOne, TokenFits, WordSymbol;
    if i < |src| && LexFrom(src, i).Ok? {
      var ts := LexFrom(src, i).value;
      match ScanOne(src, i)
      case Skip(next) =>
        LexIsFaithful(src, next);
        SkipIsGap(src, i, if |ts| == 1 then |src| else ts[0].index);
      case Emit(symbol, next) =>
        LexIsFaithful(src, next);
        EmitFits(src, i);
        assert ts[1..] == LexFrom(src, next).value;
      case Fail(error) =>
    }
  }

  /** A gap starts with a step that the scanner skips. */
  lemma GapStep(src: string, a: nat, b: nat)
    requires a < b <= |src| && Gap(src, a, b)
    ensures ScanOne(src, a).Skip? && ScanOne(src, a).next <= b && Gap(src, ScanOne(src, a).next, b)
  {
    hide WordSymbol, NumeralEnd, ScanString;
  }

  lemma {:induction false} GapIsSkipped(src: string, a: nat, b: nat)
    requires a <= b <= |src| && Gap(src, a, b)
    ensures LexFrom(src, a) == LexFrom(src, b)
    decreases b - a
  {
    hide ScanOne, Gap;
    if a < b {
      GapStep(src, a, b);
      GapIsSkipped(src, ScanOne(src, a).next, b);
    }
  }

  lemma {:induction false} FaithfulIsLexed(src: string, i: nat, ts: seq<Token>)
    requires i <= |src| && FaithfulFrom(src, i, ts)
    ensures LexFrom(src, i) == Ok(ts)
    decreases |ts|
  {
    hide ScanOne, TokenFits, WordSymbol;
    if |ts| == 1 {
      GapIsSkipped(src, i, |src|);
      assert ts == [ts[0]];
    } else {
      GapIsSkipped(src, i, ts[0].index);
      FitsEmits(src, ts[0]);
      FaithfulIsLexed(src, ts[0].End(), ts[1..]);
      assert [ts[0]] + ts[1..] == ts;
    }
  }

  /**
   Scanning succeeds with `ts` exactly when `ts` is faithful to the text: every lexeme is its own slice,
   the gaps hold only blanks and comments, tokens are as long as they can be, and every line and column
   is the one counted from the text.
   */
  lemma LexExactlyFaithful(src: string, ts: seq<Token>)
    ensures Lex(src) == Ok(ts) <==> Faithful(src, ts)
  {
    LexIsFaithful(src, 0);
    if Faithful(src, ts) {
      FaithfulIsLexed(src, 0, ts);
    }
  }

  /** Scanning fails exactly on the texts that have no faithful token list. */
  lemma ErrorMeansNoTokenList(src: string)
    ensures Lex(src).Err? <==> forall ts :: !Faithful(src, ts)
  {
    hide Lex, Faithful;
    forall ts ensures Lex(src) == Ok(ts) <==> Faithful(src, ts) {
      LexExactlyFaithful(src, ts);
    }
    if Lex(src).Ok? {
      assert Faithful(src, Lex(src).value);
    }
  }
}
