/**
 Parsing as a function of the token list and the cursor. It keeps the optional tokens it meets, so that
 reading a text and spelling it again are inverse to each other.
 */
module ParserSpec {
  import opened Outcomes
  import opened Tokens
  import opened LexerSpec
  import opened Syntax

  /** Messages of a `ParserError`. */
  datatype Complaint =
    | GraphExpected | GraphNameExpected | GraphOpenExpected | GraphCloseExpected | UnexpectedStatement
    | DirectiveNameExpected | NodeNameExpected
    | EdgeSourceExpected | ArrowExpected | EdgeTargetExpected
    | AnalysisExpected | ValueExpected
    | AttributeKeyExpected | AttributeColonExpected | BlockCloseExpected

  datatype ParseError = ParseError(complaint: Complaint, token: Token)

  datatype Parsed<+T> = Parsed(value: T, next: nat)

  /** A token list of the scanner ends with the end marker. */
  predicate Terminated(ts: seq<Token>) {
    |ts| > 0 && ts[|ts| - 1].Kind() == Eof
  }

  function Expect(ts: seq<Token>, i: nat, kind: TokenKind, complaint: Complaint)
    : (r: Result<Parsed<string>, ParseError>)
    requires Terminated(ts) && i < |ts| && kind != Eof
    ensures r.Ok? <==> ts[i].Kind() == kind
    ensures r.Ok? ==> r.value == Parsed(ts[i].symbol.lexeme, i + 1) && i + 1 < |ts|
  {
    if ts[i].Kind() == kind then Ok(Parsed(ts[i].symbol.lexeme, i + 1)) else Err(ParseError(complaint, ts[i]))
  }

  function ValueAt(ts: seq<Token>, i: nat): (r: Result<Parsed<Symbol>, ParseError>)
    requires Terminated(ts) && i < |ts|
    ensures r.Ok? <==> IsValueKind(ts[i].Kind())
    ensures r.Ok? ==> r.value == Parsed(ts[i].symbol, i + 1) && i + 1 < |ts|
  {
    if IsValueKind(ts[i].Kind()) then Ok(Parsed(ts[i].symbol, i + 1)) else Err(ParseError(ValueExpected, ts[i]))
  }

  function SemicolonAt(ts: seq<Token>, i: nat): (r: Parsed<bool>)
    requires Terminated(ts) && i < |ts|
    ensures i <= r.next < |ts|
  {
    if ts[i].Kind() == Semicolon then Parsed(true, i + 1) else Parsed(false, i)
  }

  /** `key: value`. */
  function PairAt(ts: seq<Token>, i: nat): (r: Result<Parsed<Pair>, ParseError>)
    requires Terminated(ts) && i < |ts|
    ensures r.Ok? ==> r.value.next == i + 3 < |ts|
  {
    var key :- Expect(ts, i, Identifier, AttributeKeyExpected);
    var colon :- Expect(ts, key.next, Colon, AttributeColonExpected);
    var value :- ValueAt(ts, colon.next);
    Ok(Parsed(Pair(key.value, value.value), value.next))
  }

  /** Pairs separated by commas, with at most one comma after the last. */
  function PairsAt(ts: seq<Token>, i: nat): (r: Result<Parsed<Block>, ParseError>)
    requires Terminated(ts) && i < |ts|
    ensures r.Ok? ==> i < r.value.next < |ts| && r.value.value.Pairs? && r.value.value.pairs != []
    decreases |ts| - i
  {
    var first :- PairAt(ts, i);
    if ts[first.next].Kind() != Comma then Ok(Parsed(Pairs([first.value], false), first.next))
    else if ts[first.next + 1].Kind() == RBrace then Ok(Parsed(Pairs([first.value], true), first.next + 1))
    else
      var rest :- PairsAt(ts, first.next + 1);
      Ok(Parsed(Pairs([first.value] + rest.value.pairs, rest.value.trailingComma), rest.next))
  }

  function BlockAt(ts: seq<Token>, i: nat): (r: Result<Parsed<Block>, ParseError>)
    requires Terminated(ts) && i < |ts|
    ensures r.Ok? ==> i <= r.value.next < |ts|
  {
    if ts[i].Kind() != LBrace then Ok(Parsed(NoBlock, i))
    else if ts[i + 1].Kind() == RBrace then Ok(Parsed(EmptyBlock, i + 2))
    else
      var pairs :- PairsAt(ts, i + 1);
      var close :- Expect(ts, pairs.next, RBrace, BlockCloseExpected);
      Ok(Parsed(pairs.value, close.next))
  }

  function DirectiveAt(ts: seq<Token>, i: nat): (r: Result<Parsed<Statement>, ParseError>)
    requires Terminated(ts) && i < |ts|
    ensures r.Ok? ==> i < r.value.next < |ts| && r.value.value.DirectiveText?
  {
    var name :- Expect(ts, i, Identifier, DirectiveNameExpected);
    var value :- ValueAt(ts, name.next);
    var end := SemicolonAt(ts, value.next);
    Ok(Parsed(DirectiveText(name.value, value.value, end.value), end.next))
  }

  function NodeAt(ts: seq<Token>, i: nat): (r: Result<Parsed<Statement>, ParseError>)
    requires Terminated(ts) && i < |ts|
    ensures r.Ok? ==> i < r.value.next < |ts| && r.value.value.NodeText?
  {
    var name :- Expect(ts, i, Identifier, NodeNameExpected);
    var block :- BlockAt(ts, name.next);
    var end := SemicolonAt(ts, block.next);
    Ok(Parsed(NodeText(name.value, block.value, end.value), end.next))
  }

  function EdgeAt(ts: seq<Token>, i: nat): (r: Result<Parsed<Statement>, ParseError>)
    requires Terminated(ts) && i < |ts|
    ensures r.Ok? ==> i < r.value.next < |ts| && r.value.value.EdgeText?
  {
    var from :- Expect(ts, i, Identifier, EdgeSourceExpected);
    var arrow :- Expect(ts, from.next, Arrow, ArrowExpected);
    var to :- Expect(ts, arrow.next, Identifier, EdgeTargetExpected);
    var block :- BlockAt(ts, to.next);
    var end := SemicolonAt(ts, block.next);
    Ok(Parsed(EdgeText(from.value, to.value, block.value, end.value), end.next))
  }

  predicate EndsArguments(kind: TokenKind) {
    kind == Semicolon || kind == RBrace || kind == Eof
  }

  /** Values up to a semicolon, a closing brace or the end. */
  function ArgumentsAt(ts: seq<Token>, i: nat): (r: Result<Parsed<seq<Symbol>>, ParseError>)
    requires Terminated(ts) && i < |ts|
    ensures r.Ok? ==> i <= r.value.next < |ts| && EndsArguments(ts[r.value.next].Kind())
    decreases |ts| - i
  {
    if EndsArguments(ts[i].Kind()) then Ok(Parsed([], i))
    else
      var first :- ValueAt(ts, i);
      var rest :- ArgumentsAt(ts, first.next);
      Ok(Parsed([first.value] + rest.value, rest.next))
  }

  function AnalysisAt(ts: seq<Token>, i: nat): (r: Result<Parsed<Statement>, ParseError>)
    requires Terminated(ts) && i < |ts|
    ensures r.Ok? ==> i < r.value.next < |ts| && r.value.value.AnalysisText?
  {
    var keyword :- Expect(ts, i, Analysis, AnalysisExpected);
    var title :- ValueAt(ts, keyword.next);
    var args :- ArgumentsAt(ts, title.next);
    var end := SemicolonAt(ts, args.next);
    Ok(Parsed(AnalysisText(title.value, args.value, end.value), end.next))
  }

  function StatementAt(ts: seq<Token>, i: nat): (r: Result<Parsed<Statement>, ParseError>)
    requires Terminated(ts) && i < |ts|
    ensures r.Ok? ==> i < r.value.next < |ts|
  {
    var kind := ts[i].Kind();
    if kind == Directive then DirectiveAt(ts, i + 1)
    else if kind == Node then NodeAt(ts, i + 1)
    else if kind == Edge then EdgeAt(ts, i + 1)
    else if kind == At then AnalysisAt(ts, i + 1)
    else Err(ParseError(UnexpectedStatement, ts[i]))
  }

  predicate EndsStatements(kind: TokenKind) {
    kind == RBrace || kind == Eof
  }

  function StatementsAt(ts: seq<Token>, i: nat): (r: Result<Parsed<seq<Statement>>, ParseError>)
    requires Terminated(ts) && i < |ts|
    ensures r.Ok? ==> i <= r.value.next < |ts| && EndsStatements(ts[r.value.next].Kind())
    decreases |ts| - i
  {
    if EndsStatements(ts[i].Kind()) then Ok(Parsed([], i))
    else
      var first :- StatementAt(ts, i);
      var rest :- StatementsAt(ts, first.next);
      Ok(Parsed([first.value] + rest.value, rest.next))
  }

  function GraphAt(ts: seq<Token>, i: nat): (r: Result<Parsed<GraphText>, ParseError>)
    requires Terminated(ts) && i < |ts|
    ensures r.Ok? ==> i < r.value.next < |ts|
  {
    var name :- Expect(ts, i, Identifier, GraphNameExpected);
    var open :- Expect(ts, name.next, LBrace, GraphOpenExpected);
    var statements :- StatementsAt(ts, open.next);
    var close :- Expect(ts, statements.next, RBrace, GraphCloseExpected);
    Ok(Parsed(GraphText(name.value, statements.value), close.next))
  }

  function FileAt(ts: seq<Token>, i: nat): (r: Result<FileText, ParseError>)
    requires Terminated(ts) && i < |ts|
    decreases |ts| - i
  {
    if ts[i].Kind() == Eof then Ok([])
    else if ts[i].Kind() != Graph then Err(ParseError(GraphExpected, ts[i]))
    else
      var first :- GraphAt(ts, i + 1);
      var rest :- FileAt(ts, first.next);
      Ok([first.value] + rest)
  }
}
