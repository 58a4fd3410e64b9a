/**
 Commas between attributes (graph-forge/src/parser.ts, lines 180-193): wherever a source that parses has a colon,
 its key follows an opening brace or a comma. The example of graph-forge/README.md, line 15, is not such a source.
 */
module AttributeCommas {
  import opened Outcomes
  import opened Tokens
  import opened LexerSpec
  import opened Syntax
  import opened RoundTrip

  predicate SeparatorKind(kind: TokenKind) {
    kind == LBrace || kind == Comma
  }

  /** Two tokens before each colon there is an opening brace or a comma. */
  predicate Punctuated(ss: seq<Symbol>) {
    forall k :: 0 <= k < |ss| && ss[k].kind == Colon ==> k >= 2 && SeparatorKind(ss[k - 2].kind)
  }

  predicate NoColon(ss: seq<Symbol>) {
    forall s :: s in ss ==> s.kind != Colon
  }

  lemma JoinsPunctuated(a: seq<Symbol>, b: seq<Symbol>)
    requires Punctuated(a) && Punctuated(b)
    ensures Punctuated(a + b)
  {
    forall k | 0 <= k < |a + b| && (a + b)[k].kind == Colon ensures k >= 2 && SeparatorKind((a + b)[k - 2].kind) {
      if k >= |a| {
        assert b[k - |a|].kind == Colon;
        assert (a + b)[k - 2] == b[k - |a| - 2];
      }
    }
  }

  lemma WithoutColonPunctuated(ss: seq<Symbol>)
    requires NoColon(ss)
    ensures Punctuated(ss)
  {
  }

  lemma {:induction false} PairsPunctuated(opener: Symbol, pairs: seq<Pair>)
    requires SeparatorKind(opener.kind) && forall p :: p in pairs ==> SpellableValue(p.value)
    ensures Punctuated([opener] + SpellPairs(pairs))
    decreases |pairs|
  {
    hide WellShaped, Punctuated;
    if pairs == [] {
      assert Punctuated([opener]) by { WithoutColonPunctuated([opener]); }
      assert [opener] + [] == [opener];
    } else {
      assert pairs[0] in pairs;
      OnePairPunctuated(opener, pairs[0]);
      if |pairs| > 1 {
        PairsPunctuated(COMMA, pairs[1..]);
        JoinsPunctuated([opener] + SpellPair(pairs[0]), [COMMA] + SpellPairs(pairs[1..]));
        assert [opener] + SpellPairs(pairs) == [opener] + SpellPair(pairs[0]) + ([COMMA] + SpellPairs(pairs[1..]));
      }
    }
  }

  lemma OnePairPunctuated(opener: Symbol, p: Pair)
    requires SeparatorKind(opener.kind) && SpellableValue(p.value)
    ensures Punctuated([opener] + SpellPair(p))
  {
    hide WellShaped;
    assert [opener] + SpellPair(p) == [opener, Name(p.key), COLON, p.value];
  }

  lemma BlockPunctuated(b: Block)
    requires SpellableBlock(b)
    ensures Punctuated(SpellBlock(b))
  {
    hide WellShaped, IsName, Punctuated;
    if b.Pairs? {
      var tail := Optionally(b.trailingComma, COMMA) + [CLOSE];
      PairsPunctuated(OPEN, b.pairs);
      WithoutColonPunctuated(tail);
      JoinsPunctuated([OPEN] + SpellPairs(b.pairs), tail);
      assert SpellBlock(b) == [OPEN] + SpellPairs(b.pairs) + tail;
    } else {
      WithoutColonPunctuated(SpellBlock(b));
    }
  }

  lemma BodyPunctuated(s: Statement)
    requires SpellableStatement(s)
    ensures Punctuated(SpellBody(s))
  {
    hide WellShaped, IsName, Punctuated, SpellableBlock, SpellBlock;
    match s
    case DirectiveText(name, value, _) =>
      WithoutColonPunctuated([DIRECTIVE, Name(name), value]);
    case NodeText(name, block, _) =>
      WithoutColonPunctuated([NODE, Name(name)]);
      BlockPunctuated(block);
      JoinsPunctuated([NODE, Name(name)], SpellBlock(block));
    case EdgeText(from, to, block, _) =>
      WithoutColonPunctuated([EDGE, Name(from), ARROW, Name(to)]);
      BlockPunctuated(block);
      JoinsPunctuated([EDGE, Name(from), ARROW, Name(to)], SpellBlock(block));
    case AnalysisText(title, args, _) =>
      WithoutColonPunctuated([AT, ANALYSIS, title] + args);
  }

  lemma StatementPunctuated(s: Statement)
    requires SpellableStatement(s)
    ensures Punctuated(SpellStatement(s))
  {
    hide SpellBody, SpellableStatement, Punctuated;
    BodyPunctuated(s);
    WithoutColonPunctuated(Optionally(s.semicolon, SEMICOLON));
    JoinsPunctuated(SpellBody(s), Optionally(s.semicolon, SEMICOLON));
  }

  lemma {:induction false} StatementsPunctuated(ss: seq<Statement>)
    requires forall s :: s in ss ==> SpellableStatement(s)
    ensures Punctuated(SpellStatements(ss))
  {
    hide SpellableStatement, SpellStatement, Punctuated;
    if ss == [] {
      WithoutColonPunctuated([]);
    } else {
      StatementPunctuated(ss[0]);
      StatementsPunctuated(ss[1..]);
      JoinsPunctuated(SpellStatement(ss[0]), SpellStatements(ss[1..]));
    }
  }

  lemma {:induction false} FilePunctuated(file: FileText)
    requires SpellableFile(file)
    ensures Punctuated(SpellFile(file))
  {
    hide SpellStatements, SpellableStatement, Punctuated, IsName;
    if file == [] {
      WithoutColonPunctuated([]);
    } else {
      var g := file[0];
      assert SpellableGraph(g);
      StatementsPunctuated(g.statements);
      WithoutColonPunctuated([CLOSE]);
      JoinsPunctuated(SpellStatements(g.statements), [CLOSE]);
      WithoutColonPunctuated([GRAPH, Name(g.name), OPEN]);
      JoinsPunctuated([GRAPH, Name(g.name), OPEN], SpellStatements(g.statements) + [CLOSE]);
      FilePunctuated(file[1..]);
      JoinsPunctuated(SpellGraph(g), SpellFile(file[1..]));
    }
  }

  /** In every source that parses, the key before each colon follows an opening brace or a comma. */
  lemma KeysFollowBraceOrComma(src: string)
    ensures ParseSource(src).Ok? ==> Lex(src).Ok? && Punctuated(Plain(Lex(src).value))
  {
    hide Lex, SpellFile, SpellableFile, Punctuated;
    if ParseSource(src).Ok? {
      ReadSourceIsSpelled(src);
      var file := ReadSource(src).value;
      FilePunctuated(file);
      WithoutColonPunctuated([END]);
      JoinsPunctuated(SpellFile(file), [END]);
    }
  }

  /**
   However its tokens are laid out, a source in which a value stands right before the key of an attribute does not
   parse: the comma between them is missing.
   */
  lemma MissingCommaIsRejected(ss: seq<Symbol>, gaps: seq<string>, k: nat)
    requires (forall s :: s in ss ==> WellShaped(s)) && GoodLayout(ss, gaps)
    requires k + 2 < |ss| && IsValueKind(ss[k].kind) && ss[k + 2].kind == Colon
    ensures ParseSource(Layout(ss, gaps)).Err?
  {
    hide WellShaped, GoodLayout, Layout, LexFrom, Punctuated;
    LayoutFits(ss, gaps);
    var src := Layout(ss, gaps);
    LayoutIsLexed(src, 0, ss, gaps);
    KeysFollowBraceOrComma(src);
    assert !Punctuated(ss + [END]) by { ValueIsNoSeparator(ss + [END], k); }
  }

  lemma ValueIsNoSeparator(ss: seq<Symbol>, k: nat)
    requires k + 2 < |ss| && IsValueKind(ss[k].kind) && ss[k + 2].kind == Colon
    ensures !Punctuated(ss)
  {
    assert !SeparatorKind(ss[k + 2 - 2].kind);
  }

  lemma LayoutFits(ss: seq<Symbol>, gaps: seq<string>)
    requires GoodLayout(ss, gaps)
    ensures |gaps| == |ss| + 1
  {
  }

  // ---------------------------------------------------------------------------------------------
  // The example of the documentation
  // ---------------------------------------------------------------------------------------------

  function Quotation(text: string): Symbol {
    PrintValue(StringValue(text))
  }

  function Numeral(digits: string): Symbol {
    PrintValue(NumberValue(digits))
  }

  /** The statements of graph-forge/README.md, lines 11-14, and lines 18-22. */
  function Before(): seq<Statement> {
    [DirectiveText("format", Name("table"), true),
     DirectiveText("allowCycles", PrintValue(BooleanValue(false)), true),
     NodeText("Ingest", Pairs([Pair("label", Quotation("Data intake"))], false), false)]
  }

  function After(): seq<Statement> {
    [EdgeText("Ingest", "Transform", Pairs([Pair("weight", Numeral("1"))], false), false),
     EdgeText("Transform", "Store",
       Pairs([Pair("weight", Numeral("2")), Pair("channel", Quotation("s3"))], false), false),
     AnalysisText(Name("shortestPath"), [Name("Ingest"), Name("Store")], true),
     AnalysisText(Name("criticalPath"), [], true)]
  }

  /** A node with two attributes and no comma between them, as on lines 15 and 16. */
  function CommalessNode(name: string, title: string, cost: string): seq<Symbol> {
    [NODE, Name(name), OPEN, Name("label"), COLON, Quotation(title), Name("cost"), COLON, Numeral(cost), CLOSE]
  }

  function Example(): seq<Symbol> {
    [GRAPH, Name("Pipeline"), OPEN] + SpellStatements(Before())
    + (CommalessNode("Transform", "Normalize", "3") + (CommalessNode("Store", "Persist", "4")
    + (SpellStatements(After()) + [CLOSE])))
  }

  lemma ShortWords()
    ensures IsName("label") && IsName("cost") && IsName("table") && IsName("Store")
  {
  }

  lemma LongWords()
    ensures IsName("Pipeline") && IsName("Transform") && IsName("format") && IsName("allowCycles") && IsName("Ingest")
  {
    assert "Pipeline"[0] == 'P' && "Transform"[0] == 'T' && "format"[1] == 'o' && "allowCycles"[1] == 'l';
    assert "Ingest"[0] == 'I';
  }

  lemma MoreWords()
    ensures IsName("weight") && IsName("channel") && IsName("shortestPath") && IsName("criticalPath")
  {
    assert "weight"[0] == 'w' && "channel"[0] == 'c' && "shortestPath"[0] == 's' && "criticalPath"[0] == 'c';
  }

  lemma NumeralIsSpellable(digit: string)
    requires |digit| == 1 && IsDigit(digit[0])
    ensures SpellableValue(Numeral(digit))
  {
    assert SpanEnd(digit, 0, IsDigit) == 1;
  }

  lemma QuotationIsSpellable(text: string)
    ensures SpellableValue(Quotation(text))
  {
    QuotedIsQuoted(text);
    hide Quoted;
  }

  lemma NameIsSpellable(name: string)
    requires IsName(name)
    ensures SpellableValue(Name(name))
  {
    hide IsName;
    NamesAreWellShaped();
  }

  lemma BeforeIsSpellable()
    ensures forall s :: s in Before() ==> SpellableStatement(s)
  {
    hide IsName, WellShaped, Quoted;
    ShortWords();
    LongWords();
    NameIsSpellable("table");
    QuotationIsSpellable("Data intake");
    assert SpellableValue(PrintValue(BooleanValue(false))) by { FalseIsSpellable(); }
  }

  lemma FalseIsSpellable()
    ensures SpellableValue(PrintValue(BooleanValue(false)))
  {
  }

  lemma AfterIsSpellable()
    ensures forall s :: s in After() ==> SpellableStatement(s)
  {
    hide IsName, WellShaped, Quoted, SpellableValue;
    ShortWords();
    LongWords();
    MoreWords();
    NumeralIsSpellable("1");
    NumeralIsSpellable("2");
    QuotationIsSpellable("s3");
    NameIsSpellable("shortestPath");
    NameIsSpellable("criticalPath");
    NameIsSpellable("Ingest");
    NameIsSpellable("Store");
  }

  lemma CommalessNodeIsWellShaped(name: string, title: string, cost: string)
    requires IsName(name) && |cost| == 1 && IsDigit(cost[0])
    ensures forall s :: s in CommalessNode(name, title, cost) ==> WellShaped(s)
  {
    hide IsName, WellShaped, Quoted;
    KeywordsAreWellShaped();
    NamesAreWellShaped();
    ShortWords();
    NumeralIsSpellable(cost);
    QuotationIsSpellable(title);
  }

  lemma ExampleIsWellShaped()
    ensures forall s :: s in Example() ==> WellShaped(s)
  {
    hide IsName, WellShaped, Before, After, CommalessNode, SpellStatements;
    KeywordsAreWellShaped();
    NamesAreWellShaped();
    ShortWords();
    LongWords();
    BeforeIsSpellable();
    AfterIsSpellable();
    StatementsAreWellShaped(Before());
    StatementsAreWellShaped(After());
    CommalessNodeIsWellShaped("Transform", "Normalize", "3");
    CommalessNodeIsWellShaped("Store", "Persist", "4");
  }

  /** However it is laid out, the example does not parse. */
  lemma CommalessExampleIsRejected(gaps: seq<string>)
    requires GoodLayout(Example(), gaps)
    ensures ParseSource(Layout(Example(), gaps)).Err?
  {
    hide WellShaped, GoodLayout, Layout, ParseSource, Quoted, Before, After, SpellStatements;
    ExampleIsWellShaped();
    var head := [GRAPH, Name("Pipeline"), OPEN] + SpellStatements(Before());
    var node := CommalessNode("Transform", "Normalize", "3");
    assert Example() == head + (node + Example()[|head| + |node|..]);
    assert Example()[|head| + 5] == node[5] && Example()[|head| + 7] == node[7];
    MissingCommaIsRejected(Example(), gaps, |head| + 5);
  }
}
