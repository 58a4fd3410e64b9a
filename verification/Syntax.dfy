/**
 Two syntaxes of Graph Forge: the tree that the parser returns (graph-forge/src/parser.ts, lines 3-51, its
 token fields dropped), and the text it came from, which also records every optional token.
 */
module Syntax {
  import opened Outcomes
  import opened Tokens
  import opened LexerSpec

  // ---------------------------------------------------------------------------------------------
  // Trees
  // ---------------------------------------------------------------------------------------------

  datatype Value =
    | NumberValue(digits: string)
    | StringValue(text: string)
    | BooleanValue(truth: bool)
    | IdentifierValue(name: string)

  datatype Attribute = Attribute(key: string, value: Value)

  datatype DirectiveNode = DirectiveNode(name: string, value: Value)

  datatype NodeDecl = NodeDecl(name: string, attributes: seq<Attribute>)

  datatype EdgeDecl = EdgeDecl(from: string, to: string, attributes: seq<Attribute>)

  datatype AnalysisNode = AnalysisNode(name: string, args: seq<Value>)

  datatype GraphNode = GraphNode(
    name: string,
    directives: seq<DirectiveNode>,
    nodes: seq<NodeDecl>,
    edges: seq<EdgeDecl>,
    analyses: seq<AnalysisNode>
  )

  type GraphFile = seq<GraphNode>

  // ---------------------------------------------------------------------------------------------
  // Texts: a tree with the order of its statements and its optional tokens
  // ---------------------------------------------------------------------------------------------

  /** A value is kept as the token that spells it. */
  datatype Pair = Pair(key: string, value: Symbol)

  datatype Block = NoBlock | EmptyBlock | Pairs(pairs: seq<Pair>, trailingComma: bool)

  datatype Statement =
    | DirectiveText(name: string, value: Symbol, semicolon: bool)
    | NodeText(name: string, block: Block, semicolon: bool)
    | EdgeText(from: string, to: string, block: Block, semicolon: bool)
    | AnalysisText(title: Symbol, args: seq<Symbol>, semicolon: bool)

  datatype GraphText = GraphText(name: string, statements: seq<Statement>)

  type FileText = seq<GraphText>

  // ---------------------------------------------------------------------------------------------
  // Spelling a text as tokens
  // ---------------------------------------------------------------------------------------------

  const OPEN := Symbol(LBrace, "{", NoLiteral)
  const CLOSE := Symbol(RBrace, "}", NoLiteral)
  const COLON := Symbol(Colon, ":", NoLiteral)
  const COMMA := Symbol(Comma, ",", NoLiteral)
  const SEMICOLON := Symbol(Semicolon, ";", NoLiteral)
  const ARROW := Symbol(Arrow, "->", NoLiteral)
  const AT := Symbol(At, "@", NoLiteral)
  const GRAPH := Symbol(Graph, "graph", NoLiteral)
  const NODE := Symbol(Node, "node", NoLiteral)
  const EDGE := Symbol(Edge, "edge", NoLiteral)
  const DIRECTIVE := Symbol(Directive, "directive", NoLiteral)
  const ANALYSIS := Symbol(Analysis, "analysis", NoLiteral)

  function Name(name: string): Symbol {
    Symbol(Identifier, name, NoLiteral)
  }

  function SpellPair(p: Pair): seq<Symbol> {
    [Name(p.key), COLON, p.value]
  }

  function SpellPairs(pairs: seq<Pair>): seq<Symbol> {
    if pairs == [] then []
    else if |pairs| == 1 then SpellPair(pairs[0])
    else SpellPair(pairs[0]) + ([COMMA] + SpellPairs(pairs[1..]))
  }

  function Optionally(present: bool, s: Symbol): seq<Symbol> {
    if present then [s] else []
  }

  function SpellBlock(b: Block): seq<Symbol> {
    match b
    case NoBlock => []
    case EmptyBlock => [OPEN, CLOSE]
    case Pairs(pairs, trailing) => [OPEN] + (SpellPairs(pairs) + (Optionally(trailing, COMMA) + [CLOSE]))
  }

  /** The keyword tokens and the rest of a statement, before its optional semicolon. */
  function SpellBody(s: Statement): seq<Symbol> {
    match s
    case DirectiveText(name, value, _) => [DIRECTIVE, Name(name), value]
    case NodeText(name, block, _) => [NODE, Name(name)] + SpellBlock(block)
    case EdgeText(from, to, block, _) => [EDGE, Name(from), ARROW, Name(to)] + SpellBlock(block)
    case AnalysisText(title, args, _) => [AT, ANALYSIS, title] + args
  }

  function SpellStatement(s: Statement): seq<Symbol> {
    SpellBody(s) + Optionally(s.semicolon, SEMICOLON)
  }

  function SpellStatements(ss: seq<Statement>): seq<Symbol> {
    if ss == [] then [] else SpellStatement(ss[0]) + SpellStatements(ss[1..])
  }

  function SpellGraph(g: GraphText): seq<Symbol> {
    [GRAPH, Name(g.name), OPEN] + (SpellStatements(g.statements) + [CLOSE])
  }

  function SpellFile(file: FileText): seq<Symbol> {
    if file == [] then [] else SpellGraph(file[0]) + SpellFile(file[1..])
  }

  // ---------------------------------------------------------------------------------------------
  // Which texts can be written down
  // ---------------------------------------------------------------------------------------------

  /** A name is a word that is no keyword. */
  predicate IsName(name: string) {
    IsWord(name) && WordSymbol(name).kind == Identifier
  }

  predicate IsValueKind(kind: TokenKind) {
    kind.Number? || kind.String? || kind.Boolean? || kind.Identifier?
  }

  predicate SpellableValue(s: Symbol) {
    IsValueKind(s.kind) && WellShaped(s)
  }

  predicate SpellableBlock(b: Block) {
    b.Pairs? ==> b.pairs != [] && forall p :: p in b.pairs ==> IsName(p.key) && SpellableValue(p.value)
  }

  predicate SpellableStatement(s: Statement) {
    match s
    case DirectiveText(name, value, _) => IsName(name) && SpellableValue(value)
    case NodeText(name, block, _) => IsName(name) && SpellableBlock(block)
    case EdgeText(from, to, block, _) => IsName(from) && IsName(to) && SpellableBlock(block)
    case AnalysisText(title, args, _) => SpellableValue(title) && forall a :: a in args ==> SpellableValue(a)
  }

  /** An analysis ends with a semicolon unless it is the last statement of its graph. */
  predicate SpellableStatements(ss: seq<Statement>) {
    && (forall s :: s in ss ==> SpellableStatement(s))
    && (forall k :: 0 <= k < |ss| - 1 && ss[k].AnalysisText? ==> ss[k].semicolon)
  }

  predicate SpellableGraph(g: GraphText) {
    IsName(g.name) && SpellableStatements(g.statements)
  }

  predicate SpellableFile(file: FileText) {
    forall g :: g in file ==> SpellableGraph(g)
  }

  // ---------------------------------------------------------------------------------------------
  // The tree a text stands for
  // ---------------------------------------------------------------------------------------------

  function ValueOf(s: Symbol): Value {
    if s.kind == Number then NumberValue(if s.literal.Digits? then s.literal.digits else "")
    else if s.kind == String then StringValue(if s.literal.Text? then s.literal.text else "")
    else if s.kind == Boolean then BooleanValue(s.literal.Truth? && s.literal.truth)
    else IdentifierValue(s.lexeme)
  }

  function ValuesOf(ss: seq<Symbol>): (vs: seq<Value>)
    ensures |vs| == |ss|
    ensures forall k :: 0 <= k < |ss| ==> vs[k] == ValueOf(ss[k])
  {
    seq(|ss|, k requires 0 <= k < |ss| => ValueOf(ss[k]))
  }

  function AttributesOf(b: Block): (attributes: seq<Attribute>)
    ensures |attributes| == if b.Pairs? then |b.pairs| else 0
    ensures forall k :: 0 <= k < |attributes| ==> attributes[k] == Attribute(b.pairs[k].key, ValueOf(b.pairs[k].value))
  {
    if b.Pairs? then
      seq(|b.pairs|, k requires 0 <= k < |b.pairs| => Attribute(b.pairs[k].key, ValueOf(b.pairs[k].value)))
    else []
  }

  function DirectivesOf(ss: seq<Statement>): seq<DirectiveNode> {
    if ss == [] then []
    else
      var rest := DirectivesOf(ss[..|ss| - 1]);
      var s := ss[|ss| - 1];
      if s.DirectiveText? then rest + [DirectiveNode(s.name, ValueOf(s.value))] else rest
  }

  function NodesOf(ss: seq<Statement>): seq<NodeDecl> {
    if ss == [] then []
    else
      var rest := NodesOf(ss[..|ss| - 1]);
      var s := ss[|ss| - 1];
      if s.NodeText? then rest + [NodeDecl(s.name, AttributesOf(s.block))] else rest
  }

  function EdgesOf(ss: seq<Statement>): seq<EdgeDecl> {
    if ss == [] then []
    else
      var rest := EdgesOf(ss[..|ss| - 1]);
      var s := ss[|ss| - 1];
      if s.EdgeText? then rest + [EdgeDecl(s.from, s.to, AttributesOf(s.block))] else rest
  }

  function AnalysesOf(ss: seq<Statement>): seq<AnalysisNode> {
    if ss == [] then []
    else
      var rest := AnalysesOf(ss[..|ss| - 1]);
      var s := ss[|ss| - 1];
      if s.AnalysisText? then rest + [AnalysisNode(s.title.lexeme, ValuesOf(s.args))] else rest
  }

  function GraphOf(g: GraphText): GraphNode {
    GraphNode(g.name, DirectivesOf(g.statements), NodesOf(g.statements), EdgesOf(g.statements),
      AnalysesOf(g.statements))
  }

  function FileOf(file: FileText): (graphs: GraphFile)
    ensures |graphs| == |file|
    ensures forall k :: 0 <= k < |file| ==> graphs[k] == GraphOf(file[k])
  {
    seq(|file|, k requires 0 <= k < |file| => GraphOf(file[k]))
  }
}
