/**
 From the spelling of a value to the value the compiled graph stores (graph-forge/src/lexer.ts, lines 141-206,
 graph-forge/src/parser.ts, lines 197-212, graph-forge/src/compiler.ts, lines 136-164).
 */
module CompiledValues {
  import opened Outcomes
  import opened Tokens
  import opened LexerSpec
  import opened Syntax
  import opened RoundTrip
  import opened GraphForgeCompiler

  /** `true` and `false` are truth values, what is quoted is decoded, digits stay, any other word is a text. */
  predicate Spells(lexeme: string, p: Primitive) {
    if lexeme == "true" then p == BooleanPrimitive(true)
    else if lexeme == "false" then p == BooleanPrimitive(false)
    else if lexeme == "" then false
    else if lexeme[0] == '"' then
      |lexeme| >= 2 && p.StringPrimitive? && Decoded(lexeme[1..|lexeme| - 1]) == Some(p.text)
    else if '0' <= lexeme[0] <= '9' then p == NumberPrimitive(lexeme)
    else p == StringPrimitive(lexeme)
  }

  lemma ValueIsSpelled(s: Symbol, p: Primitive)
    requires SpellableValue(s) && Means(p, ValueOf(s))
    ensures Spells(s.lexeme, p)
  {
    if s.kind == Number {
      assert IsDigit(s.lexeme[0]);
    } else if s.kind != String {
      assert IsAlpha(s.lexeme[0]) && s == WordSymbol(s.lexeme);
    }
  }

  /** Each pair of the block, but those named `__proto__`, is stored as it is spelled. */
  predicate BlockStored(table: Table, b: Block) {
    b.Pairs? ==> forall j :: 0 <= j < |b.pairs| && b.pairs[j].key != PROTO ==>
      b.pairs[j].key in table && Spells(b.pairs[j].value.lexeme, table[b.pairs[j].key])
  }

  lemma BlockIsStored(table: Table, b: Block)
    requires SpellableBlock(b) && Tabulates(table, AttributesOf(b))
    ensures BlockStored(table, b)
  {
    hide Spells, Means, WellShaped, ValueOf, IsName;
    if b.Pairs? {
      forall j | 0 <= j < |b.pairs| && b.pairs[j].key != PROTO
        ensures b.pairs[j].key in table && Spells(b.pairs[j].value.lexeme, table[b.pairs[j].key]) {
        assert AttributesOf(b)[j] == Attribute(b.pairs[j].key, ValueOf(b.pairs[j].value));
        ValueIsSpelled(b.pairs[j].value, table[b.pairs[j].key]);
      }
    }
  }

  /** What the compiled graph holds for the statement `s`, told by its tokens. */
  ghost predicate StatementStored(c: CompiledGraph, s: Statement)
    reads c.graph
  {
    match s
    case DirectiveText(name, value, _) =>
      name in c.graph.directives && Spells(value.lexeme, c.graph.directives[name])
    case NodeText(name, block, _) =>
      exists i :: 0 <= i < |c.graph.declared| && c.graph.declared[i].id == name
                  && BlockStored(c.graph.declared[i].attributes, block)
    case EdgeText(from, to, block, _) =>
      exists i :: 0 <= i < |c.graph.edges| && c.graph.edges[i].from == from && c.graph.edges[i].to == to
                  && BlockStored(c.graph.edges[i].attributes, block)
    case AnalysisText(title, args, _) =>
      exists i :: 0 <= i < |c.analyses| && c.analyses[i].name == title.lexeme && |c.analyses[i].args| == |args|
                  && forall k :: 0 <= k < |args| ==> Spells(args[k].lexeme, c.analyses[i].args[k])
  }

  /** Each statement of a text has its node in the tree. */
  lemma {:induction false} StatementsAreThere(ss: seq<Statement>, s: Statement)
    requires s in ss
    ensures s.DirectiveText? ==> DirectiveNode(s.name, ValueOf(s.value)) in DirectivesOf(ss)
    ensures s.NodeText? ==> NodeDecl(s.name, AttributesOf(s.block)) in NodesOf(ss)
    ensures s.EdgeText? ==> EdgeDecl(s.from, s.to, AttributesOf(s.block)) in EdgesOf(ss)
    ensures s.AnalysisText? ==> AnalysisNode(s.title.lexeme, ValuesOf(s.args)) in AnalysesOf(ss)
  {
    var front, last := ss[..|ss| - 1], ss[|ss| - 1];
    assert ss == front + [last];
    if s in front {
      StatementsAreThere(front, s);
    }
  }

  lemma StatementIsStored(c: CompiledGraph, g: GraphText, s: Statement)
    requires SpellableGraph(g) && s in g.statements && Compiles(c, GraphOf(g))
    ensures StatementStored(c, s)
  {
    hide Spells, Means, WellShaped, IsName, ValueOf, Tabulates, BlockStored, GraphModel.Valid;
    StatementsAreThere(g.statements, s);
    assert SpellableStatement(s);
    match s
    case DirectiveText(name, value, _) =>
      ValueIsSpelled(value, c.graph.directives[name]);
    case NodeText(name, block, _) =>
      var i :| 0 <= i < |GraphOf(g).nodes| && GraphOf(g).nodes[i] == NodeDecl(name, AttributesOf(block));
      assert NodeMatches(c.graph.declared[i], GraphOf(g).nodes[i]);
      BlockIsStored(c.graph.declared[i].attributes, block);
    case EdgeText(from, to, block, _) =>
      var i :| 0 <= i < |GraphOf(g).edges| && GraphOf(g).edges[i] == EdgeDecl(from, to, AttributesOf(block));
      assert EdgeMatches(c.graph.edges[i], GraphOf(g).edges[i]);
      BlockIsStored(c.graph.edges[i].attributes, block);
    case AnalysisText(title, args, _) =>
      var i :| 0 <= i < |GraphOf(g).analyses|
               && GraphOf(g).analyses[i] == AnalysisNode(title.lexeme, ValuesOf(args));
      forall k | 0 <= k < |args| ensures Spells(args[k].lexeme, c.analyses[i].args[k]) {
        assert args[k] in args;
        assert Means(c.analyses[i].args[k], GraphOf(g).analyses[i].args[k]);
        ValueIsSpelled(args[k], c.analyses[i].args[k]);
      }
  }

  /**
   Whatever the source, if its graph at `k` has compiled to `c`, then the tokens of the source are those of a text,
   and each statement of that graph is stored in `c` with the values that its own tokens spell.
   */
  lemma SourceValuesAreStored(src: string, k: nat, c: CompiledGraph)
    requires ParseSource(src).Ok? && k < |ParseSource(src).value| && Compiles(c, ParseSource(src).value[k])
    ensures ReadSource(src).Ok? && k < |ReadSource(src).value|
    ensures Lex(src).Ok? && Plain(Lex(src).value) == SpellFile(ReadSource(src).value) + [END]
    ensures forall s :: s in ReadSource(src).value[k].statements ==> StatementStored(c, s)
  {
    hide Lex, SpellFile, Compiles, SpellableGraph, StatementStored;
    ReadSourceIsSpelled(src);
    var g := ReadSource(src).value[k];
    assert g in ReadSource(src).value;
    forall s | s in g.statements ensures StatementStored(c, s) {
      StatementIsStored(c, g, s);
    }
  }

  const TRUE := Symbol(Boolean, "true", Truth(true))

  /** A graph with one node and one attribute, given as `true`, stores true. */
  lemma TrueIsStoredTrue(g: string, n: string, key: string, gaps: seq<string>, c: CompiledGraph)
    requires IsName(g) && IsName(n) && IsName(key) && key != PROTO
    requires GoodLayout(SpellFile([OneNode(g, n, key)]), gaps)
    requires Compiles(c, GraphOf(OneNode(g, n, key)))
    ensures ParseSource(Layout(SpellFile([OneNode(g, n, key)]), gaps)) == Ok([GraphOf(OneNode(g, n, key))])
    ensures |c.graph.declared| == 1 && c.graph.declared[0].id == n
    ensures c.graph.declared[0].attributes == map[key := BooleanPrimitive(true)]
  {
    hide IsName, GoodLayout, Layout, ReadSource, GraphModel.Valid, SpellFile;
    var text := OneNode(g, n, key);
    var s := text.statements[0];
    SpelledSourceReads([text], gaps) by { TrueIsSpellable(g, n, key); }
    assert FileOf([text]) == [GraphOf(text)];
    assert text.statements == [s] && [s][..0] == [];
    var attributes := AttributesOf(s.block);
    assert NodesOf([s]) == NodesOf([]) + [NodeDecl(n, attributes)];
    assert GraphOf(text).nodes == [NodeDecl(n, attributes)];
    assert attributes == [Attribute(key, BooleanValue(true))];
    assert NodeMatches(c.graph.declared[0], GraphOf(text).nodes[0]);
    var table := c.graph.declared[0].attributes;
    assert attributes[0].key in table && Means(table[attributes[0].key], attributes[0].value);
  }

  function OneNode(g: string, n: string, key: string): GraphText {
    GraphText(g, [NodeText(n, Pairs([Pair(key, TRUE)], false), false)])
  }

  lemma TrueIsSpellable(g: string, n: string, key: string)
    requires IsName(g) && IsName(n) && IsName(key)
    ensures SpellableFile([OneNode(g, n, key)])
  {
    hide IsName;
    assert WellShaped(TRUE);
  }
}
