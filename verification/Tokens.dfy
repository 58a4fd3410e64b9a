/**
 Tokens of the Graph Forge language (graph-forge/src/lexer.ts, lines 1-47).
 */
module Tokens {
  import opened Outcomes

  datatype TokenKind =
    | Graph | Node | Edge | Directive | Analysis
    | Identifier | Number | String | Boolean
    | LBrace | RBrace | LParen | RParen
    | Colon | Comma | Semicolon | Arrow | At
    | Eof

  /** Payload of a token. Numbers keep their digits: two numerals are told apart even when they denote one number. */
  datatype Literal = NoLiteral | Text(text: string) | Truth(truth: bool) | Digits(digits: string)

  /** A token without its location: what the parser looks at. */
  datatype Symbol = Symbol(kind: TokenKind, lexeme: string, literal: Literal)

  datatype Token = Token(symbol: Symbol, line: nat, column: nat, index: nat) {
    function Kind(): TokenKind { symbol.kind }
    function End(): nat { index + |symbol.lexeme| }
  }

  function Plain(ts: seq<Token>): (ss: seq<Symbol>)
    ensures |ss| == |ts|
    ensures forall k :: 0 <= k < |ts| ==> ss[k] == ts[k].symbol
  {
    seq(|ts|, k requires 0 <= k < |ts| => ts[k].symbol)
  }

  datatype Position = Position(line: nat, column: nat)

  /** Message of a `LexerError`. */
  datatype LexFault =
    | StrayDash
    | StraySlash
    | UnexpectedCharacter(c: char)
    | UnsupportedEscape(escape: string)
    | UnterminatedString

  datatype LexError = LexError(fault: LexFault, at: Position)

  predicate IsDigit(c: char) { '0' <= c <= '9' }

  predicate IsAlpha(c: char) { 'a' <= c <= 'z' || 'A' <= c <= 'Z' || c == '_' }

  predicate IsAlphaNumeric(c: char) { IsAlpha(c) || IsDigit(c) }

  predicate NotNewline(c: char) { c != '\n' }

  predicate IsBlank(c: char) { c == ' ' || c == '\t' || c == '\r' || c == '\n' }

  /** Meaning of the character after a backslash inside a string. */
  function Unescaped(c: char): Option<char> {
    if c == '"' || c == '\\' then Some(c)
    else if c == 'n' then Some('\n')
    else if c == 't' then Some('\t')
    else if c == 'r' then Some('\r')
    else None
  }

  /** Kinds whose lexeme is a word. */
  predicate IsWordKind(kind: TokenKind) {
    kind.Identifier? || kind.Boolean? || kind.Graph? || kind.Node? || kind.Edge? || kind.Directive? || kind.Analysis?
  }

  /** Tokens that are one fixed character. */
  function PunctuationKind(c: char): Option<TokenKind> {
    match c
    case '{' => Some(LBrace)
    case '}' => Some(RBrace)
    case '(' => Some(LParen)
    case ')' => Some(RParen)
    case ':' => Some(Colon)
    case ',' => Some(Comma)
    case ';' => Some(Semicolon)
    case '@' => Some(At)
    case _ => None
  }

  /** Token for a word: the keyword table of the lexer, any other word is an identifier. */
  function WordSymbol(word: string): (s: Symbol)
    ensures s.lexeme == word && IsWordKind(s.kind)
  {
    match word
    case "analysis" => Symbol(Analysis, word, NoLiteral)
    case "graph" => Symbol(Graph, word, NoLiteral)
    case "node" => Symbol(Node, word, NoLiteral)
    case "edge" => Symbol(Edge, word, NoLiteral)
    case "directive" => Symbol(Directive, word, NoLiteral)
    case "true" => Symbol(Boolean, word, Truth(true))
    case "false" => Symbol(Boolean, word, Truth(false))
    case _ => Symbol(Identifier, word, NoLiteral)
  }

  /** First index at or after `i` whose character fails `p`. */
  function SpanEnd(src: string, i: nat, p: char -> bool): (e: nat)
    requires i <= |src|
    ensures i <= e <= |src|
    ensures forall k :: i <= k < e ==> p(src[k])
    ensures e == |src| || !p(src[e])
    decreases |src| - i
  {
    if i < |src| && p(src[i]) then SpanEnd(src, i + 1, p) else i
  }

  lemma {:induction false} SpanEndIs(src: string, i: nat, p: char -> bool, e: nat)
    requires i <= e <= |src|
    requires forall k :: i <= k < e ==> p(src[k])
    requires e == |src| || !p(src[e])
    ensures SpanEnd(src, i, p) == e
    decreases e - i
  {
    if i < e {
      SpanEndIs(src, i + 1, p, e);
    }
  }

  /** Line of offset `i`, counted from the source text alone. */
  function LineAt(src: string, i: nat): (line: nat)
    requires i <= |src|
  {
    if i == 0 then 1 else LineAt(src, i - 1) + if src[i - 1] == '\n' then 1 else 0
  }

  /** Column of offset `i`, counted from the source text alone. */
  function ColumnAt(src: string, i: nat): (column: nat)
    requires i <= |src|
    ensures column >= 1
  {
    if i == 0 || src[i - 1] == '\n' then 1 else ColumnAt(src, i - 1) + 1
  }

  function PositionAt(src: string, i: nat): Position
    requires i <= |src|
  {
    Position(LineAt(src, i), ColumnAt(src, i))
  }
}
