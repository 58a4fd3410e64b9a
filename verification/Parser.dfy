/**
 The recursive-descent parser (graph-forge/src/parser.ts, lines 76-268): a cursor over the token array.
 Every method is proved against the function of `ParserSpec` with the same name.
 */
module GraphForgeParser {
  import opened Outcomes
  import opened Tokens
  import opened LexerSpec
  import opened Syntax
  import opened ParserSpec

  class Parser {
    const tokens: seq<Token>
    var current: nat

    constructor (tokens: seq<Token>)
      requires Terminated(tokens)
      ensures this.tokens == tokens && current == 0 && Valid()
    {
      this.tokens := tokens;
      current := 0;
    }

    ghost predicate Valid()
      reads this
    {
      Terminated(tokens) && current < |tokens|
    }

    /** The outcome `r` and the cursor agree with the parsed text `p`, seen through `f`. */
    ghost predicate Agrees<S, T(!new)>(r: Result<T, ParseError>, p: Result<Parsed<S>, ParseError>, f: S -> T)
      reads this
    {
      match p
      case Ok(parsed) => r == Ok(f(parsed.value)) && current == parsed.next
      case Err(error) => r == Err(error)
    }

    method ParseFile() returns (r: Result<GraphFile, ParseError>)
      requires Valid() && current == 0
      modifies this`current
      ensures match FileAt(tokens, 0)
              case Ok(file) => r == Ok(FileOf(file))
              case Err(error) => r == Err(error)
    {
      var graphs: GraphFile := [];
      ghost var texts: FileText := [];
      PrependNothing(FileAt(tokens, 0));
      while tokens[current].Kind() != Eof
        invariant Valid()
        invariant graphs == FileOf(texts)
        invariant FileAt(tokens, 0) == Prepend(texts, FileAt(tokens, current))
        decreases |tokens| - current
      {
        ghost var at := current;
        var isGraph := Match(Graph);
        if !isGraph {
          return Err(ParseError(GraphExpected, tokens[current]));
        }
        var graph :- GraphDeclaration();
        graphs := graphs + [graph];
        ghost var text := GraphAt(tokens, at + 1).value.value;
        PrependOne(texts, text, FileAt(tokens, current));
        texts := texts + [text];
      }
      assert texts + [] == texts;
      return Ok(graphs);
    }

    method GraphDeclaration() returns (r: Result<GraphNode, ParseError>)
      requires Valid()
      modifies this`current
      ensures Agrees(r, GraphAt(tokens, old(current)), GraphOf)
      ensures r.Ok? ==> Valid()
    {
      hide GraphOf, StatementsAt;
      var name :- Consume(Identifier, GraphNameExpected);
      var _ :- Consume(LBrace, GraphOpenExpected);
      var graph :- Statements(name);
      var _ :- Consume(RBrace, GraphCloseExpected);
      return Ok(graph);
    }

    /** The statement loop of the graph declaration. */
    method Statements(name: string) returns (r: Result<GraphNode, ParseError>)
      requires Valid()
      modifies this`current
      ensures Agrees(r, StatementsAt(tokens, old(current)), ss => GraphOf(GraphText(name, ss)))
      ensures r.Ok? ==> Valid()
    {
      hide DirectiveAt, NodeAt, EdgeAt, AnalysisAt, ToDirective, ToNode, ToEdge, ToAnalysis;
      hide GraphOf, StatementsAt, Continue;
      var directives: seq<DirectiveNode> := [];
      var nodes: seq<NodeDecl> := [];
      var edges: seq<EdgeDecl> := [];
      var analyses: seq<AnalysisNode> := [];
      ghost var texts: seq<Statement> := [];
      ghost var first := current;
      ContinueFromStart(tokens, first);
      EmptyGraph(name);
      while tokens[current].Kind() != RBrace && tokens[current].Kind() != Eof
        invariant Valid()
        invariant StatementsAt(tokens, first) == Continue(texts, StatementsAt(tokens, current))
        invariant GraphNode(name, directives, nodes, edges, analyses) == GraphOf(GraphText(name, texts))
        decreases |tokens| - current
      {
        ghost var at := current;
        ghost var statement := StatementAt(tokens, at);
        ContinueWithOne(tokens, at, texts);
        var matched := Match(Directive);
        if matched {
          var directive :- DirectiveStatement();
          directives := directives + [directive];
        } else {
          matched := Match(Node);
          if matched {
            var node :- NodeDeclaration();
            nodes := nodes + [node];
          } else {
            matched := Match(Edge);
            if matched {
              var edge :- EdgeDeclaration();
              edges := edges + [edge];
            } else {
              matched := Match(At);
              if matched {
                var analysis :- AnalysisStatement();
                analyses := analyses + [analysis];
              } else {
                return Err(ParseError(UnexpectedStatement, tokens[current]));
              }
            }
          }
        }
        AppendStatement(name, texts, statement.value.value);
        texts := texts + [statement.value.value];
      }
      StopStatements(tokens, current);
      return Ok(GraphNode(name, directives, nodes, edges, analyses));
    }

    method DirectiveStatement() returns (r: Result<DirectiveNode, ParseError>)
      requires Valid()
      modifies this`current
      ensures Agrees(r, DirectiveAt(tokens, old(current)), ToDirective)
      ensures r.Ok? ==> Valid()
    {
      var name :- Consume(Identifier, DirectiveNameExpected);
      var value :- ValueNode();
      var _ := ConsumeOptional(Semicolon);
      return Ok(DirectiveNode(name, ValueOf(value)));
    }

    method NodeDeclaration() returns (r: Result<NodeDecl, ParseError>)
      requires Valid()
      modifies this`current
      ensures Agrees(r, NodeAt(tokens, old(current)), ToNode)
      ensures r.Ok? ==> Valid()
    {
      var name :- Consume(Identifier, NodeNameExpected);
      var attributes :- AttributeBlockOptional();
      var _ := ConsumeOptional(Semicolon);
      return Ok(NodeDecl(name, attributes));
    }

    method EdgeDeclaration() returns (r: Result<EdgeDecl, ParseError>)
      requires Valid()
      modifies this`current
      ensures Agrees(r, EdgeAt(tokens, old(current)), ToEdge)
      ensures r.Ok? ==> Valid()
    {
      var from :- Consume(Identifier, EdgeSourceExpected);
      var _ :- Consume(Arrow, ArrowExpected);
      var to :- Consume(Identifier, EdgeTargetExpected);
      var attributes :- AttributeBlockOptional();
      var _ := ConsumeOptional(Semicolon);
      return Ok(EdgeDecl(from, to, attributes));
    }

    method AnalysisStatement() returns (r: Result<AnalysisNode, ParseError>)
      requires Valid()
      modifies this`current
      ensures Agrees(r, AnalysisAt(tokens, old(current)), ToAnalysis)
      ensures r.Ok? ==> Valid()
    {
      hide ValueOf, ArgumentsAt, Expect;
      var _ :- Consume(Analysis, AnalysisExpected);
      var title :- ValueNode();
      var args :- Arguments();
      var _ := ConsumeOptional(Semicolon);
      // An identifier's value is its lexeme, and every other value falls back to the lexeme.
      return Ok(AnalysisNode(title.lexeme, args));
    }

    /** The argument loop of the analysis statement. */
    method Arguments() returns (r: Result<seq<Value>, ParseError>)
      requires Valid()
      modifies this`current
      ensures Agrees(r, ArgumentsAt(tokens, old(current)), ValuesOf)
      ensures r.Ok? ==> Valid()
    {
      hide ValueOf, ArgumentsAt, Continue, Expect;
      var args: seq<Value> := [];
      ghost var symbols: seq<Symbol> := [];
      ghost var first := current;
      ArgumentsFromStart(tokens, first);
      while tokens[current].Kind() != Semicolon && tokens[current].Kind() != RBrace && tokens[current].Kind() != Eof
        invariant Valid()
        invariant ArgumentsAt(tokens, first) == Continue(symbols, ArgumentsAt(tokens, current))
        invariant args == ValuesOf(symbols)
        decreases |tokens| - current
      {
        ArgumentsWithOne(tokens, current, symbols);
        var value :- ValueNode();
        args := args + [ValueOf(value)];
        symbols := symbols + [value];
      }
      StopArguments(tokens, current);
      return Ok(args);
    }

    method AttributeBlockOptional() returns (r: Result<seq<Attribute>, ParseError>)
      requires Valid()
      modifies this`current
      ensures Agrees(r, BlockAt(tokens, old(current)), AttributesOf)
      ensures r.Ok? ==> Valid()
    {
      hide PairsAt;
      var open := Match(LBrace);
      if !open {
        return Ok([]);
      }
      if tokens[current].Kind() == RBrace {
        var _ := Advance();
        return Ok([]);
      }
      var attributes :- Attributes();
      var _ :- Consume(RBrace, BlockCloseExpected);
      return Ok(attributes);
    }

    /** The attribute loop of the block. */
    method Attributes() returns (r: Result<seq<Attribute>, ParseError>)
      requires Valid()
      modifies this`current
      ensures Agrees(r, PairsAt(tokens, old(current)), AttributesOf)
      ensures r.Ok? ==> Valid()
    {
      hide ValueOf, PairAt, PairsAt, AttributesOf, ToAttribute;
      var attributes: seq<Attribute> := [];
      ghost var pairs: seq<Pair> := [];
      ghost var first := current;
      MorePairsByOne(tokens, first, []);
      while true
        invariant Valid()
        invariant attributes == AttributesOf(Pairs(pairs, false))
        invariant PairsAt(tokens, first) == MorePairs(pairs, PairsAt(tokens, current))
        decreases |tokens| - current
      {
        ghost var pair := PairAt(tokens, current);
        MorePairsByOne(tokens, current, pairs);
        var attribute :- AttributePair();
        attributes := attributes + [attribute];
        AppendPair(pairs, pair.value.value);
        pairs := pairs + [pair.value.value];
        var comma := Match(Comma);
        if comma {
          if tokens[current].Kind() == RBrace {
            break;
          }
          continue;
        }
        break;
      }
      return Ok(attributes);
    }

    /** The first three calls of the attribute loop. */
    method AttributePair() returns (r: Result<Attribute, ParseError>)
      requires Valid()
      modifies this`current
      ensures Agrees(r, PairAt(tokens, old(current)), ToAttribute)
      ensures r.Ok? ==> Valid()
    {
      var key :- Consume(Identifier, AttributeKeyExpected);
      var _ :- Consume(Colon, AttributeColonExpected);
      var value :- ValueNode();
      return Ok(Attribute(key, ValueOf(value)));
    }

    method ValueNode() returns (r: Result<Symbol, ParseError>)
      requires Valid()
      modifies this`current
      ensures Agrees(r, ValueAt(tokens, old(current)), s => s)
      ensures r.Ok? ==> Valid()
    {
      var number := Match(Number);
      if number {
        return Ok(tokens[current - 1].symbol);
      }
      var text := Match(String);
      if text {
        return Ok(tokens[current - 1].symbol);
      }
      var truth := Match(Boolean);
      if truth {
        return Ok(tokens[current - 1].symbol);
      }
      if tokens[current].Kind() == Identifier {
        var token := Advance();
        return Ok(token.symbol);
      }
      return Err(ParseError(ValueExpected, tokens[current]));
    }

    method Match(kind: TokenKind) returns (matched: bool)
      requires Valid() && kind != Eof
      modifies this`current
      ensures Valid()
      ensures matched == (tokens[old(current)].Kind() == kind)
      ensures current == if matched then old(current) + 1 else old(current)
    {
      matched := tokens[current].Kind() == kind;
      if matched {
        var _ := Advance();
      }
    }

    method Consume(kind: TokenKind, complaint: Complaint) returns (r: Result<string, ParseError>)
      requires Valid() && kind != Eof
      modifies this`current
      ensures Agrees(r, Expect(tokens, old(current), kind, complaint), s => s)
      ensures r.Ok? ==> Valid()
    {
      if tokens[current].Kind() == kind {
        var token := Advance();
        return Ok(token.symbol.lexeme);
      }
      return Err(ParseError(complaint, tokens[current]));
    }

    method ConsumeOptional(kind: TokenKind) returns (consumed: bool)
      requires Valid() && kind != Eof
      modifies this`current
      ensures Valid()
      ensures consumed == (tokens[old(current)].Kind() == kind)
      ensures current == if consumed then old(current) + 1 else old(current)
    {
      consumed := Match(kind);
    }

    method Advance() returns (token: Token)
      requires Valid() && tokens[current].Kind() != Eof
      modifies this`current
      ensures Valid() && current == old(current) + 1 && token == tokens[old(current)]
    {
      current := current + 1;
      token := tokens[current - 1];
    }
  }

  function ToAttribute(p: Pair): Attribute {
    Attribute(p.key, ValueOf(p.value))
  }

  function ToDirective(s: Statement): DirectiveNode {
    if s.DirectiveText? then DirectiveNode(s.name, ValueOf(s.value)) else DirectiveNode("", BooleanValue(false))
  }

  function ToNode(s: Statement): NodeDecl {
    if s.NodeText? then NodeDecl(s.name, AttributesOf(s.block)) else NodeDecl("", [])
  }

  function ToEdge(s: Statement): EdgeDecl {
    if s.EdgeText? then EdgeDecl(s.from, s.to, AttributesOf(s.block)) else EdgeDecl("", "", [])
  }

  function ToAnalysis(s: Statement): AnalysisNode {
    if s.AnalysisText? then AnalysisNode(s.title.lexeme, ValuesOf(s.args)) else AnalysisNode("", [])
  }

  // ---------------------------------------------------------------------------------------------
  // What the loops have read so far, put before what is still to read
  // ---------------------------------------------------------------------------------------------

  function Continue<T>(front: seq<T>, rest: Result<Parsed<seq<T>>, ParseError>): Result<Parsed<seq<T>>, ParseError> {
    if rest.Ok? then Ok(Parsed(front + rest.value.value, rest.value.next)) else rest
  }

  function MorePairs(front: seq<Pair>, rest: Result<Parsed<Block>, ParseError>): Result<Parsed<Block>, ParseError> {
    if rest.Ok? && rest.value.value.Pairs? then
      Ok(Parsed(Pairs(front + rest.value.value.pairs, rest.value.value.trailingComma), rest.value.next))
    else rest
  }

  lemma PrependOne<T, E>(front: seq<T>, x: T, r: Result<seq<T>, E>)
    ensures r.Ok? ==> Prepend(front + [x], r) == Ok(front + ([x] + r.value))
  {
    if r.Ok? {
      assert front + ([x] + r.value) == front + [x] + r.value;
    }
  }

  lemma ContinueFromStart(ts: seq<Token>, i: nat)
    requires Terminated(ts) && i < |ts|
    ensures StatementsAt(ts, i) == Continue([], StatementsAt(ts, i))
  {
    var r := StatementsAt(ts, i);
    if r.Ok? {
      assert [] + r.value.value == r.value.value;
    }
  }

  lemma ContinueWithOne(ts: seq<Token>, i: nat, front: seq<Statement>)
    requires Terminated(ts) && i < |ts| && !EndsStatements(ts[i].Kind())
    ensures StatementAt(ts, i).Err? ==> Continue(front, StatementsAt(ts, i)) == Err(StatementAt(ts, i).error)
    ensures StatementAt(ts, i).Ok? ==>
              Continue(front, StatementsAt(ts, i)) ==
              Continue(front + [StatementAt(ts, i).value.value], StatementsAt(ts, StatementAt(ts, i).value.next))
  {
    hide StatementAt;
    var s := StatementAt(ts, i);
    if s.Ok? && StatementsAt(ts, s.value.next).Ok? {
      var rest := StatementsAt(ts, s.value.next).value.value;
      assert front + ([s.value.value] + rest) == front + [s.value.value] + rest;
    }
  }

  lemma StopStatements(ts: seq<Token>, i: nat)
    requires Terminated(ts) && i < |ts| && EndsStatements(ts[i].Kind())
    ensures forall front :: Continue(front, StatementsAt(ts, i)) == Ok(Parsed(front, i))
  {
    forall front: seq<Statement> ensures front + [] == front {}
  }

  lemma EmptyGraph(name: string)
    ensures GraphOf(GraphText(name, [])) == GraphNode(name, [], [], [], [])
  {
  }

  /** A statement goes to the array of its kind and leaves the other three alone. */
  lemma AppendStatement(name: string, ss: seq<Statement>, s: Statement)
    ensures var before, after := GraphOf(GraphText(name, ss)), GraphOf(GraphText(name, ss + [s]));
            match s
            case DirectiveText(_, _, _) => after == before.(directives := before.directives + [ToDirective(s)])
            case NodeText(_, _, _) => after == before.(nodes := before.nodes + [ToNode(s)])
            case EdgeText(_, _, _, _) => after == before.(edges := before.edges + [ToEdge(s)])
            case AnalysisText(_, _, _) => after == before.(analyses := before.analyses + [ToAnalysis(s)])
  {
    assert (ss + [s])[..|ss + [s]| - 1] == ss;
  }

  lemma ArgumentsFromStart(ts: seq<Token>, i: nat)
    requires Terminated(ts) && i < |ts|
    ensures ArgumentsAt(ts, i) == Continue([], ArgumentsAt(ts, i))
  {
    var r := ArgumentsAt(ts, i);
    if r.Ok? {
      assert [] + r.value.value == r.value.value;
    }
  }

  lemma StopArguments(ts: seq<Token>, i: nat)
    requires Terminated(ts) && i < |ts| && EndsArguments(ts[i].Kind())
    ensures forall front :: Continue(front, ArgumentsAt(ts, i)) == Ok(Parsed(front, i))
  {
    forall front: seq<Symbol> ensures front + [] == front {}
  }

  lemma ArgumentsWithOne(ts: seq<Token>, i: nat, front: seq<Symbol>)
    requires Terminated(ts) && i < |ts| && !EndsArguments(ts[i].Kind())
    ensures ValueAt(ts, i).Err? ==> Continue(front, ArgumentsAt(ts, i)) == Err(ValueAt(ts, i).error)
    ensures ValueAt(ts, i).Ok? ==>
              Continue(front, ArgumentsAt(ts, i)) ==
              Continue(front + [ts[i].symbol], ArgumentsAt(ts, i + 1))
  {
    var v := ValueAt(ts, i);
    if v.Ok? && ArgumentsAt(ts, i + 1).Ok? {
      var rest := ArgumentsAt(ts, i + 1).value.value;
      assert front + ([v.value.value] + rest) == front + [v.value.value] + rest;
    }
  }

  lemma AppendPair(pairs: seq<Pair>, p: Pair)
    ensures forall t :: AttributesOf(Pairs(pairs + [p], t)) == AttributesOf(Pairs(pairs, false)) + [ToAttribute(p)]
  {
  }

  lemma MorePairsByOne(ts: seq<Token>, i: nat, front: seq<Pair>)
    requires Terminated(ts) && i < |ts|
    ensures front == [] ==> MorePairs(front, PairsAt(ts, i)) == PairsAt(ts, i)
    ensures PairAt(ts, i).Err? ==> MorePairs(front, PairsAt(ts, i)) == Err(PairAt(ts, i).error)
    ensures PairAt(ts, i).Ok? && ts[i + 3].Kind() == Comma && ts[i + 4].Kind() != RBrace ==>
              MorePairs(front, PairsAt(ts, i)) == MorePairs(front + [PairAt(ts, i).value.value], PairsAt(ts, i + 4))
    ensures PairAt(ts, i).Ok? && ts[i + 3].Kind() == Comma && ts[i + 4].Kind() == RBrace ==>
              MorePairs(front, PairsAt(ts, i)) == Ok(Parsed(Pairs(front + [PairAt(ts, i).value.value], true), i + 4))
    ensures PairAt(ts, i).Ok? && ts[i + 3].Kind() != Comma ==>
              MorePairs(front, PairsAt(ts, i)) == Ok(Parsed(Pairs(front + [PairAt(ts, i).value.value], false), i + 3))
  {
    hide PairAt;
    var r := PairsAt(ts, i);
    if r.Ok? && front == [] {
      assert [] + r.value.value.pairs == r.value.value.pairs;
    }
    if PairAt(ts, i).Ok? && ts[i + 3].Kind() == Comma && ts[i + 4].Kind() != RBrace {
      MorePairsShift(front, PairAt(ts, i).value.value, PairsAt(ts, i + 4));
    }
  }

  lemma MorePairsShift(front: seq<Pair>, pair: Pair, rest: Result<Parsed<Block>, ParseError>)
    ensures MorePairs(front, MorePairs([pair], rest)) == MorePairs(front + [pair], rest)
  {
    if rest.Ok? && rest.value.value.Pairs? {
      assert front + ([pair] + rest.value.value.pairs) == front + [pair] + rest.value.value.pairs;
    }
  }
}
