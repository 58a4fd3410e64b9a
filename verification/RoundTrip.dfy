/**
 From source text to tree and back (graph-forge/src/parser.ts, `parse`). The repository has no printer; the
 one below is canonical, and a text may also be laid out with any blanks and comments between its tokens.
 */
module RoundTrip {
  import opened Outcomes
  import opened Tokens
  import opened LexerSpec
  import opened Syntax
  import opened ParserSpec
  import opened ParserProofs
  import GraphForgeLexer
  import GraphForgeParser

  datatype SourceError = Unreadable(lexError: LexError) | Unparsable(parseError: ParseError)

  function ReadSource(src: string): Result<FileText, SourceError> {
    match Lex(src)
    case Err(error) => Err(Unreadable(error))
    case Ok(ts) =>
      LexedIsScanned(src, ts);
      match FileAt(ts, 0)
      case Err(error) => Err(Unparsable(error))
      case Ok(file) => Ok(file)
  }

  function ParseSource(src: string): Result<GraphFile, SourceError> {
    match ReadSource(src)
    case Err(error) => Err(error)
    case Ok(file) => Ok(FileOf(file))
  }

  method Parse(source: string) returns (r: Result<GraphFile, SourceError>)
    ensures r == ParseSource(source)
  {
    var lexer := new GraphForgeLexer.Lexer(source);
    var tokens := lexer.ScanTokens();
    if tokens.Err? {
      return Err(Unreadable(tokens.error));
    }
    LexedIsScanned(source, tokens.value);
    var parser := new GraphForgeParser.Parser(tokens.value);
    var file := parser.ParseFile();
    if file.Err? {
      return Err(Unparsable(file.error));
    }
    return Ok(file.value);
  }

  lemma {:induction false} FaithfulIsScanned(src: string, i: nat, ts: seq<Token>)
    requires i <= |src| && FaithfulFrom(src, i, ts)
    ensures Scanned(ts)
    decreases |ts|
  {
    hide WellShaped, StopsAt, Gap;
    if |ts| > 1 {
      FaithfulIsScanned(src, ts[0].End(), ts[1..]);
      forall k | 0 <= k < |ts| - 1 ensures WellShaped(ts[k].symbol) {
        if k > 0 {
          assert ts[k] == ts[1..][k - 1];
        }
      }
    }
  }

  lemma LexedIsScanned(src: string, ts: seq<Token>)
    requires Lex(src) == Ok(ts)
    ensures Scanned(ts) && ts[|ts| - 1] == EofAt(src)
  {
    LexIsFaithful(src, 0);
    FaithfulIsScanned(src, 0, ts);
    LastIsEnd(src, 0, ts);
  }

  lemma {:induction false} LastIsEnd(src: string, i: nat, ts: seq<Token>)
    requires i <= |src| && FaithfulFrom(src, i, ts)
    ensures ts[|ts| - 1] == EofAt(src)
    decreases |ts|
  {
    hide TokenFits, Gap;
    if |ts| > 1 {
      LastIsEnd(src, ts[0].End(), ts[1..]);
    }
  }

  // ---------------------------------------------------------------------------------------------
  // Layouts
  // ---------------------------------------------------------------------------------------------

  /** Blanks and whole line comments. */
  predicate Trivia(g: string)
    decreases |g|
  {
    g == ""
    || (IsBlank(g[0]) && Trivia(g[1..]))
    || (|g| >= 2 && g[0] == '/' && g[1] == '/'
        && SpanEnd(g, 2, NotNewline) < |g| && Trivia(g[SpanEnd(g, 2, NotNewline)..]))
  }

  /** Two tokens that would be scanned as one, or cut differently, when nothing stands between them. */
  predicate Glues(a: Symbol, b: Symbol) {
    (IsWordKind(a.kind) && (IsWordKind(b.kind) || b.kind == Number)) || (a.kind == Number && b.kind == Number)
  }

  predicate GoodLayout(ss: seq<Symbol>, gaps: seq<string>) {
    && |gaps| == |ss| + 1
    && (forall k :: 0 <= k < |gaps| ==> Trivia(gaps[k]))
    && (forall k :: 0 <= k < |ss| - 1 && Glues(ss[k], ss[k + 1]) ==> gaps[k + 1] != "")
  }

  /** `gaps[0]`, the first lexeme, `gaps[1]`, the second lexeme, and so on. */
  function Layout(ss: seq<Symbol>, gaps: seq<string>): string
    requires |gaps| == |ss| + 1
  {
    if ss == [] then gaps[0] else gaps[0] + (ss[0].lexeme + Layout(ss[1..], gaps[1..]))
  }

  function Spaced(ss: seq<Symbol>): (gaps: seq<string>)
    ensures GoodLayout(ss, gaps)
  {
    assert Trivia(" ") by { assert " "[1..] == ""; }
    seq(|ss| + 1, _ => " ")
  }

  lemma {:induction false} TriviaIsGap(src: string, i: nat, g: string)
    requires i + |g| <= |src| && src[i..i + |g|] == g && Trivia(g)
    ensures Gap(src, i, i + |g|)
    decreases |g|
  {
    if g != "" {
      assert src[i] == g[0];
      var step := 1;
      if !(IsBlank(g[0]) && Trivia(g[1..])) {
        step := SpanEnd(g, 2, NotNewline);
        assert src[i + 1] == g[1];
        forall k | i + 2 <= k < i + step ensures NotNewline(src[k]) {
          assert g[k - i] == src[k];
        }
        assert g[step] == src[i + step];
        SpanEndIs(src, i + 2, NotNewline, i + step);
      }
      SliceOfSlice(src, i, i + |g|, step, |g|);
      TriviaIsGap(src, i + step, g[step..]);
    }
  }

  lemma FirstCharacter(s: Symbol)
    requires WellShaped(s)
    ensures |s.lexeme| > 0
    ensures IsWordKind(s.kind) ==> IsAlpha(s.lexeme[0])
    ensures s.kind == Number ==> IsDigit(s.lexeme[0])
    ensures !IsWordKind(s.kind) && s.kind != Number ==> !IsAlphaNumeric(s.lexeme[0]) && s.lexeme[0] != '.'
  {
    hide Decoded;
  }

  /** What follows a token in a good layout does not lengthen it. */
  lemma LayoutStops(src: string, e: nat, a: Symbol, ss: seq<Symbol>, gaps: seq<string>)
    requires e <= |src| && |gaps| == |ss| + 1 && src[e..] == Layout(ss, gaps)
    requires Trivia(gaps[0]) && (ss != [] ==> WellShaped(ss[0]) && (Glues(a, ss[0]) ==> gaps[0] != ""))
    ensures StopsAt(src, e, a)
  {
    hide WellShaped;
    var rest := Layout(ss, gaps);
    if rest != "" {
      assert src[e] == rest[0];
      if gaps[0] != "" {
        assert rest[0] == gaps[0][0];
      } else {
        FirstCharacter(ss[0]);
        assert rest[0] == ss[0].lexeme[0];
      }
    }
  }

  const END := Symbol(Eof, "", NoLiteral)

  /** Whatever stands between them, well-shaped tokens are scanned back. */
  lemma {:induction false} LayoutIsLexed(src: string, i: nat, ss: seq<Symbol>, gaps: seq<string>)
    requires i <= |src| && GoodLayout(ss, gaps) && src[i..] == Layout(ss, gaps)
    requires forall s :: s in ss ==> WellShaped(s)
    ensures LexFrom(src, i).Ok? && Plain(LexFrom(src, i).value) == ss + [END]
    decreases |ss|
  {
    hide WellShaped, StopsAt, ScanOne, LineAt, ColumnAt, Trivia, Glues, Gap;
    var g := gaps[0];
    var j := i + |g|;
    assert src[i..j] == g by {
      assert src[i..j] == src[i..][..|g|];
    }
    TriviaIsGap(src, i, g);
    GapIsSkipped(src, i, j);
    if ss == [] {
      assert j == |src|;
    } else {
      var more := Layout(ss[1..], gaps[1..]);
      var t := TokenAt(src, j, ss[0]);
      var e := t.End();
      assert src[j..] == ss[0].lexeme + more by {
        assert src[j..] == src[i..][|g|..];
      }
      assert src[j..e] == ss[0].lexeme && src[e..] == more by {
        assert src[j..e] == src[j..][..e - j];
        assert src[e..] == src[j..][e - j..];
      }
      LayoutStops(src, e, ss[0], ss[1..], gaps[1..]);
      FitsEmits(src, t);
      FirstCharacter(ss[0]);
      LayoutIsLexed(src, e, ss[1..], gaps[1..]);
      var rest := LexFrom(src, e).value;
      assert Plain([t] + rest) == [ss[0]] + Plain(rest);
    }
  }

  // ---------------------------------------------------------------------------------------------
  // Texts round-trip
  // ---------------------------------------------------------------------------------------------

  lemma {:induction false} SpelledIsWellShaped(file: FileText)
    requires SpellableFile(file)
    ensures forall s :: s in SpellFile(file) ==> WellShaped(s)
  {
    hide SpellGraph, SpellableGraph, WellShaped;
    if file != [] {
      GraphIsWellShaped(file[0]);
      SpelledIsWellShaped(file[1..]);
    }
  }

  lemma KeywordsAreWellShaped()
    ensures forall s :: s in [OPEN, CLOSE, COLON, COMMA, SEMICOLON, ARROW, AT] ==> WellShaped(s)
    ensures forall s :: s in [GRAPH, NODE, EDGE, DIRECTIVE, ANALYSIS] ==> WellShaped(s)
  {
    hide WellShaped;
    PunctuationIsWellShaped();
    ReservedWordsAreWellShaped();
  }

  lemma PunctuationIsWellShaped()
    ensures forall s :: s in [OPEN, CLOSE, COLON, COMMA, SEMICOLON, ARROW, AT] ==> WellShaped(s)
  {
  }

  lemma ReservedWordsAreWellShaped()
    ensures forall s :: s in [GRAPH, NODE, EDGE, DIRECTIVE, ANALYSIS] ==> WellShaped(s)
  {
  }

  lemma NamesAreWellShaped()
    ensures forall n: string :: IsName(n) ==> WellShaped(Name(n))
  {
  }

  lemma {:induction false} PairsAreWellShaped(pairs: seq<Pair>)
    requires forall p :: p in pairs ==> IsName(p.key) && SpellableValue(p.value)
    ensures forall s :: s in SpellPairs(pairs) ==> WellShaped(s)
  {
    hide WellShaped, IsName;
    KeywordsAreWellShaped();
    NamesAreWellShaped();
    if pairs != [] {
      assert pairs[0] in pairs;
      PairsAreWellShaped(pairs[1..]);
    }
  }

  lemma StatementIsWellShaped(s: Statement)
    requires SpellableStatement(s)
    ensures forall t :: t in SpellStatement(s) ==> WellShaped(t)
  {
    hide WellShaped, IsName, SpellPairs;
    KeywordsAreWellShaped();
    NamesAreWellShaped();
    if (s.NodeText? || s.EdgeText?) && s.block.Pairs? {
      PairsAreWellShaped(s.block.pairs);
    }
  }

  lemma {:induction false} StatementsAreWellShaped(ss: seq<Statement>)
    requires forall s :: s in ss ==> SpellableStatement(s)
    ensures forall t :: t in SpellStatements(ss) ==> WellShaped(t)
  {
    hide WellShaped, SpellStatement, SpellableStatement;
    if ss != [] {
      StatementIsWellShaped(ss[0]);
      StatementsAreWellShaped(ss[1..]);
    }
  }

  lemma GraphIsWellShaped(g: GraphText)
    requires SpellableGraph(g)
    ensures forall t :: t in SpellGraph(g) ==> WellShaped(t)
  {
    hide WellShaped, IsName, SpellStatements, SpellableStatement;
    KeywordsAreWellShaped();
    NamesAreWellShaped();
    StatementsAreWellShaped(g.statements);
  }

  /** Every spellable text, however its tokens are laid out, reads back as itself. */
  lemma SpelledSourceReads(file: FileText, gaps: seq<string>)
    requires SpellableFile(file) && GoodLayout(SpellFile(file), gaps)
    ensures ReadSource(Layout(SpellFile(file), gaps)) == Ok(file)
    ensures ParseSource(Layout(SpellFile(file), gaps)) == Ok(FileOf(file))
  {
    hide SpellFile, SpellableFile, WellShaped, FileAt, Layout, Trivia, Glues, LexFrom;
    var src := Layout(SpellFile(file), gaps);
    SpelledIsWellShaped(file);
    LayoutIsLexed(src, 0, SpellFile(file), gaps);
    var ts := Lex(src).value;
    LexedIsScanned(src, ts);
    assert ts[|ts| - 1].symbol == END;
    ParseExactlySpelled(ts, file);
  }

  /** A source that reads is spelled by what it reads as: its token list is that text and an end marker. */
  lemma ReadSourceIsSpelled(src: string)
    requires ReadSource(src).Ok?
    ensures SpellableFile(ReadSource(src).value)
    ensures Lex(src).Ok? && Plain(Lex(src).value) == SpellFile(ReadSource(src).value) + [END]
  {
    hide SpellFile, SpellableFile, WellShaped, FileAt, LexFrom;
    var ts := Lex(src).value;
    LexedIsScanned(src, ts);
    ParseExactlySpelled(ts, ReadSource(src).value);
  }

  // ---------------------------------------------------------------------------------------------
  // The canonical printer
  // ---------------------------------------------------------------------------------------------

  function Escaped(text: string): string {
    if text == "" then ""
    else
      var c := text[0];
      (if c == '"' || c == '\\' then ['\\', c]
       else if c == '\n' then ['\\', 'n']
       else if c == '\t' then ['\\', 't']
       else if c == '\r' then ['\\', 'r']
       else [c]) + Escaped(text[1..])
  }

  lemma {:induction false} EscapedDecodes(text: string)
    ensures Decoded(Escaped(text)) == Some(text)
  {
    if text != "" {
      EscapedDecodes(text[1..]);
      var step := |Escaped(text)| - |Escaped(text[1..])|;
      assert Escaped(text)[step..] == Escaped(text[1..]);
      assert [text[0]] + text[1..] == text;
    }
  }

  function Quoted(text: string): string {
    ['"'] + Escaped(text) + ['"']
  }

  lemma QuotedIsQuoted(text: string)
    ensures IsQuoted(Quoted(text), text)
  {
    EscapedDecodes(text);
    var w := Quoted(text);
    assert w[1..|w| - 1] == Escaped(text);
  }

  function PrintValue(v: Value): Symbol {
    match v
    case NumberValue(digits) => Symbol(Number, digits, Digits(digits))
    case StringValue(text) => Symbol(String, Quoted(text), Text(text))
    case BooleanValue(truth) => WordSymbol(if truth then "true" else "false")
    case IdentifierValue(name) => Name(name)
  }

  /** The value token spelled `name`: the tree keeps only the lexeme of an analysis name. */
  function PrintTitle(name: string): Symbol {
    if IsNumeral(name) then Symbol(Number, name, Digits(name))
    else if name != "" && name[0] == '"' then
      Symbol(String, name, if |name| >= 2 then Text(Decoded(name[1..|name| - 1]).GetOr("")) else NoLiteral)
    else WordSymbol(name)
  }

  function PrintBlock(attributes: seq<Attribute>): Block {
    if attributes == [] then NoBlock
    else
      Pairs(seq(|attributes|, k requires 0 <= k < |attributes| =>
        Pair(attributes[k].key, PrintValue(attributes[k].value))), false)
  }

  function PrintValues(vs: seq<Value>): (ss: seq<Symbol>)
    ensures |ss| == |vs|
    ensures forall k :: 0 <= k < |vs| ==> ss[k] == PrintValue(vs[k])
  {
    seq(|vs|, k requires 0 <= k < |vs| => PrintValue(vs[k]))
  }

  function PrintDirectives(ds: seq<DirectiveNode>): seq<Statement> {
    if ds == [] then []
    else
      var d := ds[|ds| - 1];
      PrintDirectives(ds[..|ds| - 1]) + [DirectiveText(d.name, PrintValue(d.value), true)]
  }

  function PrintNodes(ns: seq<NodeDecl>): seq<Statement> {
    if ns == [] then []
    else
      var n := ns[|ns| - 1];
      PrintNodes(ns[..|ns| - 1]) + [NodeText(n.name, PrintBlock(n.attributes), true)]
  }

  function PrintEdges(es: seq<EdgeDecl>): seq<Statement> {
    if es == [] then []
    else
      var e := es[|es| - 1];
      PrintEdges(es[..|es| - 1]) + [EdgeText(e.from, e.to, PrintBlock(e.attributes), true)]
  }

  function PrintAnalyses(xs: seq<AnalysisNode>): seq<Statement> {
    if xs == [] then []
    else
      var a := xs[|xs| - 1];
      PrintAnalyses(xs[..|xs| - 1]) + [AnalysisText(PrintTitle(a.name), PrintValues(a.args), true)]
  }

  function PrintGraph(g: GraphNode): GraphText {
    GraphText(g.name,
      PrintDirectives(g.directives) + PrintNodes(g.nodes) + PrintEdges(g.edges) + PrintAnalyses(g.analyses))
  }

  function PrintFile(file: GraphFile): (text: FileText)
    ensures |text| == |file|
    ensures forall k :: 0 <= k < |file| ==> text[k] == PrintGraph(file[k])
  {
    seq(|file|, k requires 0 <= k < |file| => PrintGraph(file[k]))
  }

  function Print(file: GraphFile): string {
    Layout(SpellFile(PrintFile(file)), Spaced(SpellFile(PrintFile(file))))
  }

  // ---------------------------------------------------------------------------------------------
  // Trees round-trip
  // ---------------------------------------------------------------------------------------------

  predicate WellFormedValue(v: Value) {
    (v.NumberValue? ==> IsNumeral(v.digits)) && (v.IdentifierValue? ==> IsName(v.name))
  }

  predicate WellFormedAttributes(attributes: seq<Attribute>) {
    forall a :: a in attributes ==> IsName(a.key) && WellFormedValue(a.value)
  }

  predicate WellFormedGraph(g: GraphNode) {
    && IsName(g.name)
    && (forall d :: d in g.directives ==> IsName(d.name) && WellFormedValue(d.value))
    && (forall n :: n in g.nodes ==> IsName(n.name) && WellFormedAttributes(n.attributes))
    && (forall e :: e in g.edges ==> IsName(e.from) && IsName(e.to) && WellFormedAttributes(e.attributes))
    && (forall a :: a in g.analyses ==>
          SpellableValue(PrintTitle(a.name)) && forall v :: v in a.args ==> WellFormedValue(v))
  }

  predicate WellFormed(file: GraphFile) {
    forall g :: g in file ==> WellFormedGraph(g)
  }

  lemma ValuePrints(v: Value)
    requires WellFormedValue(v)
    ensures SpellableValue(PrintValue(v)) && ValueOf(PrintValue(v)) == v
  {
    hide Decoded, Escaped;
    if v.StringValue? {
      QuotedIsQuoted(v.text);
    }
  }

  lemma TitlePrints(s: Symbol)
    requires SpellableValue(s)
    ensures PrintTitle(s.lexeme) == s
  {
    hide Decoded;
    if s.kind != Number {
      assert !IsDigit(s.lexeme[0]);
    }
  }

  lemma ReadValueIsWellFormed(s: Symbol)
    requires SpellableValue(s)
    ensures WellFormedValue(ValueOf(s))
  {
    hide Decoded;
  }

  lemma BlockPrints(attributes: seq<Attribute>)
    requires WellFormedAttributes(attributes)
    ensures SpellableBlock(PrintBlock(attributes)) && AttributesOf(PrintBlock(attributes)) == attributes
  {
    hide SpellableValue, ValueOf, PrintValue, WellFormedValue, IsName;
    var b := PrintBlock(attributes);
    forall k | 0 <= k < |attributes|
      ensures SpellableValue(PrintValue(attributes[k].value))
      ensures ValueOf(PrintValue(attributes[k].value)) == attributes[k].value
    {
      assert attributes[k] in attributes;
      ValuePrints(attributes[k].value);
    }
  }

  lemma LastStatement(ss: seq<Statement>)
    requires ss != []
    ensures var front, s := ss[..|ss| - 1], ss[|ss| - 1];
            && DirectivesOf(ss) == DirectivesOf(front) + DirectivesOf([s])
            && NodesOf(ss) == NodesOf(front) + NodesOf([s])
            && EdgesOf(ss) == EdgesOf(front) + EdgesOf([s])
            && AnalysesOf(ss) == AnalysesOf(front) + AnalysesOf([s])
  {
    hide ValueOf, AttributesOf, ValuesOf;
    var s := ss[|ss| - 1];
    assert [s][..0] == [];
  }

  lemma PartsOfNothing()
    ensures DirectivesOf([]) == [] && NodesOf([]) == [] && EdgesOf([]) == [] && AnalysesOf([]) == []
  {
  }

  lemma {:induction false} PartsJoin(a: seq<Statement>, b: seq<Statement>)
    ensures DirectivesOf(a + b) == DirectivesOf(a) + DirectivesOf(b)
    ensures NodesOf(a + b) == NodesOf(a) + NodesOf(b)
    ensures EdgesOf(a + b) == EdgesOf(a) + EdgesOf(b)
    ensures AnalysesOf(a + b) == AnalysesOf(a) + AnalysesOf(b)
    decreases |b|
  {
    hide DirectivesOf, NodesOf, EdgesOf, AnalysesOf;
    if b == [] {
      PartsOfNothing();
      assert a + b == a;
    } else {
      var front, s := b[..|b| - 1], b[|b| - 1];
      PartsJoin(a, front);
      assert (a + b)[..|a + b| - 1] == a + front && (a + b)[|a + b| - 1] == s;
      LastStatement(a + b);
      LastStatement(b);
    }
  }

  lemma {:induction false} DirectivesPrint(ds: seq<DirectiveNode>)
    requires forall d :: d in ds ==> IsName(d.name) && WellFormedValue(d.value)
    ensures var ss := PrintDirectives(ds);
            && DirectivesOf(ss) == ds && NodesOf(ss) == [] && EdgesOf(ss) == [] && AnalysesOf(ss) == []
            && (forall s :: s in ss ==> SpellableStatement(s) && s.semicolon)
  {
    hide ValueOf, PrintValue, WellFormedValue, SpellableValue, IsName;
    if ds != [] {
      var front, d := ds[..|ds| - 1], ds[|ds| - 1];
      assert front + [d] == ds;
      DirectivesPrint(front);
      ValuePrints(d.value);
      var ss := PrintDirectives(ds);
      assert ss[..|ss| - 1] == PrintDirectives(front);
    }
  }

  lemma {:induction false} NodesPrint(ns: seq<NodeDecl>)
    requires forall n :: n in ns ==> IsName(n.name) && WellFormedAttributes(n.attributes)
    ensures var ss := PrintNodes(ns);
            && DirectivesOf(ss) == [] && NodesOf(ss) == ns && EdgesOf(ss) == [] && AnalysesOf(ss) == []
            && (forall s :: s in ss ==> SpellableStatement(s) && s.semicolon)
  {
    hide PrintBlock, AttributesOf, WellFormedAttributes, SpellableBlock, IsName;
    if ns != [] {
      var front, n := ns[..|ns| - 1], ns[|ns| - 1];
      assert front + [n] == ns;
      NodesPrint(front);
      BlockPrints(n.attributes);
      var ss := PrintNodes(ns);
      assert ss[..|ss| - 1] == PrintNodes(front);
    }
  }

  lemma {:induction false} EdgesPrint(es: seq<EdgeDecl>)
    requires forall e :: e in es ==> IsName(e.from) && IsName(e.to) && WellFormedAttributes(e.attributes)
    ensures var ss := PrintEdges(es);
            && DirectivesOf(ss) == [] && NodesOf(ss) == [] && EdgesOf(ss) == es && AnalysesOf(ss) == []
            && (forall s :: s in ss ==> SpellableStatement(s) && s.semicolon)
  {
    hide PrintBlock, AttributesOf, WellFormedAttributes, SpellableBlock, IsName;
    if es != [] {
      var front, e := es[..|es| - 1], es[|es| - 1];
      assert front + [e] == es;
      EdgesPrint(front);
      BlockPrints(e.attributes);
      var ss := PrintEdges(es);
      assert ss[..|ss| - 1] == PrintEdges(front);
    }
  }

  lemma ArgumentsPrint(vs: seq<Value>)
    requires forall v :: v in vs ==> WellFormedValue(v)
    ensures ValuesOf(PrintValues(vs)) == vs && forall s :: s in PrintValues(vs) ==> SpellableValue(s)
  {
    hide ValueOf, PrintValue, WellFormedValue, SpellableValue;
    forall k | 0 <= k < |vs|
      ensures ValueOf(PrintValue(vs[k])) == vs[k] && SpellableValue(PrintValue(vs[k]))
    {
      assert vs[k] in vs;
      ValuePrints(vs[k]);
    }
  }

  lemma {:induction false} AnalysesPrint(xs: seq<AnalysisNode>)
    requires forall a :: a in xs ==>
      SpellableValue(PrintTitle(a.name)) && forall v :: v in a.args ==> WellFormedValue(v)
    ensures var ss := PrintAnalyses(xs);
            && DirectivesOf(ss) == [] && NodesOf(ss) == [] && EdgesOf(ss) == [] && AnalysesOf(ss) == xs
            && (forall s :: s in ss ==> SpellableStatement(s) && s.semicolon)
  {
    hide PrintValues, ValuesOf, PrintTitle, SpellableValue, WellFormedValue;
    if xs != [] {
      var front, a := xs[..|xs| - 1], xs[|xs| - 1];
      assert front + [a] == xs;
      AnalysesPrint(front);
      ArgumentsPrint(a.args);
      TitleKeepsLexeme(a.name);
      var ss := PrintAnalyses(xs);
      assert ss[..|ss| - 1] == PrintAnalyses(front);
    }
  }

  lemma TitleKeepsLexeme(name: string)
    ensures PrintTitle(name).lexeme == name
  {
  }

  lemma GraphPrints(g: GraphNode)
    requires WellFormedGraph(g)
    ensures SpellableGraph(PrintGraph(g)) && GraphOf(PrintGraph(g)) == g
  {
    hide PrintDirectives, PrintNodes, PrintEdges, PrintAnalyses;
    hide DirectivesOf, NodesOf, EdgesOf, AnalysesOf, SpellableStatement, IsName, WellFormedValue;
    var d, n, e, a := PrintDirectives(g.directives), PrintNodes(g.nodes), PrintEdges(g.edges),
      PrintAnalyses(g.analyses);
    DirectivesPrint(g.directives);
    NodesPrint(g.nodes);
    EdgesPrint(g.edges);
    AnalysesPrint(g.analyses);
    PartsJoin(d, n);
    PartsJoin(d + n, e);
    PartsJoin(d + n + e, a);
  }

  lemma FilePrints(file: GraphFile)
    requires WellFormed(file)
    ensures SpellableFile(PrintFile(file)) && FileOf(PrintFile(file)) == file
  {
    hide SpellableGraph, WellFormedGraph, PrintGraph, GraphOf;
    forall k | 0 <= k < |file|
      ensures SpellableGraph(PrintGraph(file[k])) && GraphOf(PrintGraph(file[k])) == file[k]
    {
      assert file[k] in file;
      GraphPrints(file[k]);
    }
  }

  /** Printing a well-formed tree, with any blanks and comments between the tokens, and parsing it gives the tree. */
  lemma PrintedFileParses(file: GraphFile, gaps: seq<string>)
    requires WellFormed(file) && GoodLayout(SpellFile(PrintFile(file)), gaps)
    ensures ParseSource(Layout(SpellFile(PrintFile(file)), gaps)) == Ok(file)
    ensures ParseSource(Print(file)) == Ok(file)
  {
    hide WellFormed, SpellableFile, GoodLayout, Layout, PrintFile, ReadSource, ParseSource;
    FilePrints(file);
    SpelledSourceReads(PrintFile(file), gaps);
    SpelledSourceReads(PrintFile(file), Spaced(SpellFile(PrintFile(file))));
  }

  lemma {:induction false} ReadStatementsAreWellFormed(ss: seq<Statement>)
    requires forall s :: s in ss ==> SpellableStatement(s)
    ensures forall d :: d in DirectivesOf(ss) ==> IsName(d.name) && WellFormedValue(d.value)
    ensures forall n :: n in NodesOf(ss) ==> IsName(n.name) && WellFormedAttributes(n.attributes)
    ensures forall e :: e in EdgesOf(ss) ==> IsName(e.from) && IsName(e.to) && WellFormedAttributes(e.attributes)
    ensures forall a :: a in AnalysesOf(ss) ==>
              SpellableValue(PrintTitle(a.name)) && forall v :: v in a.args ==> WellFormedValue(v)
  {
    hide IsName, SpellableValue, WellFormedValue, ValueOf, PrintTitle;
    if ss != [] {
      var s := ss[|ss| - 1];
      assert s in ss;
      ReadStatementsAreWellFormed(ss[..|ss| - 1]);
      match s
      case DirectiveText(_, value, _) => ReadValueIsWellFormed(value);
      case NodeText(_, block, _) => ReadBlockIsWellFormed(block);
      case EdgeText(_, _, block, _) => ReadBlockIsWellFormed(block);
      case AnalysisText(title, args, _) =>
        TitlePrints(title);
        ReadArgumentsAreWellFormed(args);
    }
  }

  lemma ReadBlockIsWellFormed(b: Block)
    requires SpellableBlock(b)
    ensures WellFormedAttributes(AttributesOf(b))
  {
    hide IsName, SpellableValue, WellFormedValue, ValueOf;
    var attributes := AttributesOf(b);
    forall k | 0 <= k < |attributes| ensures IsName(attributes[k].key) && WellFormedValue(attributes[k].value) {
      assert b.pairs[k] in b.pairs;
      ReadValueIsWellFormed(b.pairs[k].value);
    }
  }

  lemma ReadArgumentsAreWellFormed(args: seq<Symbol>)
    requires forall a :: a in args ==> SpellableValue(a)
    ensures forall v :: v in ValuesOf(args) ==> WellFormedValue(v)
  {
    hide SpellableValue, WellFormedValue, ValueOf;
    forall k | 0 <= k < |args| ensures WellFormedValue(ValueOf(args[k])) {
      assert args[k] in args;
      ReadValueIsWellFormed(args[k]);
    }
  }

  /** The parser only returns well-formed trees. */
  lemma ParsedIsWellFormed(src: string)
    requires ParseSource(src).Ok?
    ensures WellFormed(ParseSource(src).value)
  {
    hide Lex, FileAt, SpellFile, IsName, WellFormedValue, SpellableStatement, PrintTitle, SpellableValue;
    ReadSourceIsSpelled(src);
    var text := ReadSource(src).value;
    forall k | 0 <= k < |text| ensures WellFormedGraph(GraphOf(text[k])) {
      assert text[k] in text;
      ReadStatementsAreWellFormed(text[k].statements);
    }
  }

  /** The trees some source parses to are exactly the well-formed ones. */
  lemma ParsableExactlyWellFormed(file: GraphFile)
    ensures (exists src :: ParseSource(src) == Ok(file)) <==> WellFormed(file)
  {
    if WellFormed(file) {
      PrintedFileParses(file, Spaced(SpellFile(PrintFile(file))));
    }
    forall src | ParseSource(src) == Ok(file) ensures WellFormed(file) {
      ParsedIsWellFormed(src);
    }
  }

  /** Reformatting a source that parses keeps its tree, whatever layout is chosen. */
  lemma ReformattingKeepsTree(src: string, gaps: seq<string>)
    requires ParseSource(src).Ok? && GoodLayout(SpellFile(PrintFile(ParseSource(src).value)), gaps)
    ensures ParseSource(Layout(SpellFile(PrintFile(ParseSource(src).value)), gaps)) == ParseSource(src)
  {
    ParsedIsWellFormed(src);
    PrintedFileParses(ParseSource(src).value, gaps);
  }
}
