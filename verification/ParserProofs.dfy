/**
 The parser accepts exactly the spelled texts: reading a token list and spelling the result gives the
 token list back, and spelling a text and reading it gives the text back.
 */
module ParserProofs {
  import opened Outcomes
  import opened Tokens
  import opened LexerSpec
  import opened Syntax
  import opened ParserSpec

  /** What the scanner guarantees about its token list. */
  predicate Scanned(ts: seq<Token>) {
    Terminated(ts) && forall k :: 0 <= k < |ts| - 1 ==> WellShaped(ts[k].symbol)
  }

  /** Outside names and values the kind of a token fixes the token. */
  lemma KindFixesSymbol(s: Symbol)
    requires WellShaped(s)
    ensures s.kind == LBrace ==> s == OPEN
    ensures s.kind == RBrace ==> s == CLOSE
    ensures s.kind == Colon ==> s == COLON
    ensures s.kind == Comma ==> s == COMMA
    ensures s.kind == Semicolon ==> s == SEMICOLON
    ensures s.kind == Arrow ==> s == ARROW
    ensures s.kind == At ==> s == AT
    ensures s.kind == Graph ==> s == GRAPH
    ensures s.kind == Node ==> s == NODE
    ensures s.kind == Edge ==> s == EDGE
    ensures s.kind == Directive ==> s == DIRECTIVE
    ensures s.kind == Analysis ==> s == ANALYSIS
    ensures s.kind == Identifier ==> s == Name(s.lexeme) && IsName(s.lexeme)
  {
    if !IsWordKind(s.kind) && s.kind != Arrow && s.kind != Number && s.kind != String {
      assert s.lexeme == [s.lexeme[0]];
    }
  }

  // ---------------------------------------------------------------------------------------------
  // What was read is what the tokens spell
  // ---------------------------------------------------------------------------------------------

  lemma TokenSpells(ts: seq<Token>, i: nat)
    requires Scanned(ts) && i < |ts| && ts[i].Kind() != Eof
    ensures i + 1 < |ts| && WellShaped(ts[i].symbol)
    ensures Plain(ts)[i] == ts[i].symbol && Plain(ts)[i..i + 1] == [ts[i].symbol]
  {
  }

  lemma Adjoin<T>(s: seq<T>, i: nat, j: nat, k: nat)
    requires i <= j <= k <= |s|
    ensures s[i..j] + s[j..k] == s[i..k]
  {
  }

  lemma Regroup<T>(a: seq<T>, b: seq<T>, c: seq<T>)
    ensures (a + b) + c == a + (b + c)
  {
  }

  lemma SemicolonSpells(ts: seq<Token>, i: nat)
    requires Scanned(ts) && i < |ts|
    ensures var r := SemicolonAt(ts, i); Optionally(r.value, SEMICOLON) == Plain(ts)[i..r.next]
  {
    if ts[i].Kind() == Semicolon {
      TokenSpells(ts, i);
      KindFixesSymbol(ts[i].symbol);
    }
  }

  lemma PairSpells(ts: seq<Token>, i: nat)
    requires Scanned(ts) && i < |ts| && PairAt(ts, i).Ok?
    ensures var p := PairAt(ts, i).value;
            SpellPair(p.value) == Plain(ts)[i..p.next] && IsName(p.value.key) && SpellableValue(p.value.value)
  {
    hide WellShaped;
    TokenSpells(ts, i);
    TokenSpells(ts, i + 1);
    TokenSpells(ts, i + 2);
    KindFixesSymbol(ts[i].symbol);
    KindFixesSymbol(ts[i + 1].symbol);
  }

  lemma {:induction false} PairsSpell(ts: seq<Token>, i: nat)
    requires Scanned(ts) && i < |ts| && PairsAt(ts, i).Ok?
    ensures var r := PairsAt(ts, i).value;
            && SpellableBlock(r.value)
            && SpellPairs(r.value.pairs) + Optionally(r.value.trailingComma, COMMA) == Plain(ts)[i..r.next]
    decreases |ts| - i
  {
    hide WellShaped, PairAt, SpellPair, IsName, SpellableValue;
    var first := PairAt(ts, i).value;
    var r := PairsAt(ts, i).value;
    PairSpells(ts, i);
    if ts[first.next].Kind() == Comma {
      TokenSpells(ts, first.next);
      KindFixesSymbol(ts[first.next].symbol);
      if ts[first.next + 1].Kind() != RBrace {
        var rest := PairsAt(ts, first.next + 1).value;
        PairsSpell(ts, first.next + 1);
        assert r.value.pairs[1..] == rest.value.pairs;
        Adjoin(Plain(ts), i, first.next, r.next);
        Adjoin(Plain(ts), first.next, first.next + 1, r.next);
      }
    }
  }

  lemma PairsBlockSpells(ts: seq<Token>, i: nat)
    requires Scanned(ts) && i + 1 < |ts| && ts[i].symbol == OPEN && PairsAt(ts, i + 1).Ok?
    requires ts[PairsAt(ts, i + 1).value.next].symbol == CLOSE
    ensures var r := PairsAt(ts, i + 1).value;
            SpellableBlock(r.value) && SpellBlock(r.value) == Plain(ts)[i..r.next + 1]
  {
    hide WellShaped, PairsAt, SpellPairs, IsName, SpellableValue, Plain;
    var r := PairsAt(ts, i + 1).value;
    PairsSpell(ts, i + 1);
    TokenSpells(ts, i);
    TokenSpells(ts, r.next);
    Bracket(Plain(ts), i, r.next, SpellPairs(r.value.pairs), Optionally(r.value.trailingComma, COMMA));
  }

  lemma Bracket(ss: seq<Symbol>, i: nat, n: nat, pairs: seq<Symbol>, comma: seq<Symbol>)
    requires i + 1 <= n < |ss| && ss[i..i + 1] == [OPEN] && ss[n..n + 1] == [CLOSE] && pairs + comma == ss[i + 1..n]
    ensures [OPEN] + (pairs + (comma + [CLOSE])) == ss[i..n + 1]
  {
    Regroup(pairs, comma, [CLOSE]);
    Adjoin(ss, i + 1, n, n + 1);
    Adjoin(ss, i, i + 1, n + 1);
  }

  lemma BlockSpells(ts: seq<Token>, i: nat)
    requires Scanned(ts) && i < |ts| && BlockAt(ts, i).Ok?
    ensures var r := BlockAt(ts, i).value;
            SpellableBlock(r.value) && SpellBlock(r.value) == Plain(ts)[i..r.next]
  {
    hide WellShaped, PairsAt, SpellPairs, IsName, SpellableValue, Plain;
    if ts[i].Kind() == LBrace {
      BraceSpells(ts, i);
      BraceSpells(ts, BlockAt(ts, i).value.next - 1);
      if ts[i + 1].Kind() == RBrace {
        Adjoin(Plain(ts), i, i + 1, i + 2);
        assert [OPEN] + [CLOSE] == [OPEN, CLOSE];
      } else {
        hide SpellBlock, SpellableBlock;
        PairsBlockSpells(ts, i);
      }
    }
  }

  lemma BraceSpells(ts: seq<Token>, i: nat)
    requires Scanned(ts) && i < |ts| && (ts[i].Kind() == LBrace || ts[i].Kind() == RBrace)
    ensures i + 1 < |ts| && ts[i].symbol == (if ts[i].Kind() == LBrace then OPEN else CLOSE)
    ensures Plain(ts)[i..i + 1] == [ts[i].symbol]
  {
    hide WellShaped;
    TokenSpells(ts, i);
    KindFixesSymbol(ts[i].symbol);
  }

  lemma {:induction false} ArgumentsSpell(ts: seq<Token>, i: nat)
    requires Scanned(ts) && i < |ts| && ArgumentsAt(ts, i).Ok?
    ensures var r := ArgumentsAt(ts, i).value;
            (forall a :: a in r.value ==> SpellableValue(a)) && r.value == Plain(ts)[i..r.next]
    decreases |ts| - i
  {
    hide WellShaped;
    if !EndsArguments(ts[i].Kind()) {
      TokenSpells(ts, i);
      ArgumentsSpell(ts, i + 1);
      Adjoin(Plain(ts), i, i + 1, ArgumentsAt(ts, i).value.next);
    }
  }

  lemma DirectiveSpells(ts: seq<Token>, i: nat)
    requires Scanned(ts) && 0 < i < |ts| && ts[i - 1].symbol == DIRECTIVE && DirectiveAt(ts, i).Ok?
    ensures var r := DirectiveAt(ts, i).value;
            SpellableStatement(r.value) && SpellStatement(r.value) == Plain(ts)[i - 1..r.next]
  {
    hide WellShaped;
    TokenSpells(ts, i);
    TokenSpells(ts, i + 1);
    KindFixesSymbol(ts[i].symbol);
    SemicolonSpells(ts, i + 2);
    Adjoin(Plain(ts), i - 1, i + 2, DirectiveAt(ts, i).value.next);
  }

  lemma NodeSpells(ts: seq<Token>, i: nat)
    requires Scanned(ts) && 0 < i < |ts| && ts[i - 1].symbol == NODE && NodeAt(ts, i).Ok?
    ensures var r := NodeAt(ts, i).value;
            SpellableStatement(r.value) && SpellStatement(r.value) == Plain(ts)[i - 1..r.next]
  {
    hide WellShaped, IsName, BlockAt, SpellBlock, SpellableBlock, SemicolonAt, Plain;
    TokenSpells(ts, i);
    KindFixesSymbol(ts[i].symbol);
    BlockSpells(ts, i + 1);
    var b := BlockAt(ts, i + 1).value.next;
    SemicolonSpells(ts, b);
    var ss := Plain(ts);
    assert ss[i - 1..i + 1] == [NODE, Name(ts[i].symbol.lexeme)];
    Adjoin(ss, i - 1, i + 1, b);
    Adjoin(ss, i - 1, b, NodeAt(ts, i).value.next);
  }

  lemma EdgeSpells(ts: seq<Token>, i: nat)
    requires Scanned(ts) && 0 < i < |ts| && ts[i - 1].symbol == EDGE && EdgeAt(ts, i).Ok?
    ensures var r := EdgeAt(ts, i).value;
            SpellableStatement(r.value) && SpellStatement(r.value) == Plain(ts)[i - 1..r.next]
  {
    hide WellShaped, IsName, BlockAt, SpellBlock, SpellableBlock, SemicolonAt, Plain;
    TokenSpells(ts, i);
    TokenSpells(ts, i + 1);
    TokenSpells(ts, i + 2);
    KindFixesSymbol(ts[i].symbol);
    KindFixesSymbol(ts[i + 1].symbol);
    KindFixesSymbol(ts[i + 2].symbol);
    BlockSpells(ts, i + 3);
    var b := BlockAt(ts, i + 3).value.next;
    SemicolonSpells(ts, b);
    var ss := Plain(ts);
    assert ss[i - 1..i + 3] == [EDGE, Name(ts[i].symbol.lexeme), ARROW, Name(ts[i + 2].symbol.lexeme)];
    Adjoin(ss, i - 1, i + 3, b);
    Adjoin(ss, i - 1, b, EdgeAt(ts, i).value.next);
  }

  lemma AnalysisSpells(ts: seq<Token>, i: nat)
    requires Scanned(ts) && 0 < i < |ts| && ts[i - 1].symbol == AT && AnalysisAt(ts, i).Ok?
    ensures var r := AnalysisAt(ts, i).value;
            SpellableStatement(r.value) && SpellStatement(r.value) == Plain(ts)[i - 1..r.next]
  {
    hide WellShaped, ArgumentsAt, SemicolonAt, Plain;
    TokenSpells(ts, i);
    TokenSpells(ts, i + 1);
    KindFixesSymbol(ts[i].symbol);
    ArgumentsSpell(ts, i + 2);
    var b := ArgumentsAt(ts, i + 2).value.next;
    SemicolonSpells(ts, b);
    var ss := Plain(ts);
    assert ss[i - 1..i + 2] == [AT, ANALYSIS, ts[i + 1].symbol];
    Adjoin(ss, i - 1, i + 2, b);
    Adjoin(ss, i - 1, b, AnalysisAt(ts, i).value.next);
  }

  lemma StatementSpells(ts: seq<Token>, i: nat)
    requires Scanned(ts) && i < |ts| && StatementAt(ts, i).Ok?
    ensures var r := StatementAt(ts, i).value;
            && SpellableStatement(r.value) && SpellStatement(r.value) == Plain(ts)[i..r.next]
            && (r.value.AnalysisText? && !r.value.semicolon ==> EndsStatements(ts[r.next].Kind()))
  {
    hide WellShaped, DirectiveAt, NodeAt, EdgeAt, SpellStatement, SpellableStatement;
    TokenSpells(ts, i);
    KindFixesSymbol(ts[i].symbol);
    var kind := ts[i].Kind();
    if kind == Directive {
      DirectiveSpells(ts, i + 1);
    } else if kind == Node {
      NodeSpells(ts, i + 1);
    } else if kind == Edge {
      EdgeSpells(ts, i + 1);
    } else {
      AnalysisSpells(ts, i + 1);
    }
  }

  lemma {:induction false} StatementsSpell(ts: seq<Token>, i: nat)
    requires Scanned(ts) && i < |ts| && StatementsAt(ts, i).Ok?
    ensures var r := StatementsAt(ts, i).value;
            SpellableStatements(r.value) && SpellStatements(r.value) == Plain(ts)[i..r.next]
    decreases |ts| - i
  {
    hide WellShaped, StatementAt, SpellStatement, SpellableStatement;
    if !EndsStatements(ts[i].Kind()) {
      var first := StatementAt(ts, i).value;
      var rest := StatementsAt(ts, first.next).value;
      var r := StatementsAt(ts, i).value;
      StatementSpells(ts, i);
      StatementsSpell(ts, first.next);
      assert r.value[1..] == rest.value;
      Adjoin(Plain(ts), i, first.next, rest.next);
    }
  }

  lemma Enclose(ss: seq<Symbol>, i: nat, j: nat, n: nat, head: seq<Symbol>, body: seq<Symbol>)
    requires i <= j <= n < |ss| && ss[i..j] == head && ss[j..n] == body && ss[n..n + 1] == [CLOSE]
    ensures head + (body + [CLOSE]) == ss[i..n + 1]
  {
    Adjoin(ss, j, n, n + 1);
    Adjoin(ss, i, j, n + 1);
  }

  lemma GraphHeadSpells(ts: seq<Token>, i: nat)
    requires Scanned(ts) && 0 < i < |ts| - 1 && ts[i - 1].symbol == GRAPH
    requires ts[i].Kind() == Identifier && ts[i + 1].Kind() == LBrace
    ensures IsName(ts[i].symbol.lexeme)
    ensures Plain(ts)[i - 1..i + 2] == [GRAPH, Name(ts[i].symbol.lexeme), OPEN]
  {
    hide WellShaped, IsName;
    TokenSpells(ts, i);
    BraceSpells(ts, i + 1);
    KindFixesSymbol(ts[i].symbol);
  }

  lemma GraphSpells(ts: seq<Token>, i: nat)
    requires Scanned(ts) && 0 < i < |ts| && ts[i - 1].symbol == GRAPH && GraphAt(ts, i).Ok?
    ensures var r := GraphAt(ts, i).value;
            SpellableGraph(r.value) && SpellGraph(r.value) == Plain(ts)[i - 1..r.next]
  {
    hide WellShaped, IsName, StatementsAt, SpellStatements, SpellableStatements, Plain;
    var r := GraphAt(ts, i).value;
    GraphHeadSpells(ts, i);
    BraceSpells(ts, r.next - 1);
    StatementsSpell(ts, i + 2);
    var head := [GRAPH, Name(r.value.name), OPEN];
    Enclose(Plain(ts), i - 1, i + 2, r.next - 1, head, SpellStatements(r.value.statements));
  }

  /** A file read from a scanned token list spells that list, up to its end marker. */
  lemma {:induction false} FileSpells(ts: seq<Token>, i: nat)
    requires Scanned(ts) && i < |ts| && FileAt(ts, i).Ok?
    ensures SpellableFile(FileAt(ts, i).value) && SpellFile(FileAt(ts, i).value) == Plain(ts)[i..|ts| - 1]
    decreases |ts| - i
  {
    hide WellShaped, GraphAt, SpellGraph, SpellableGraph;
    if ts[i].Kind() == Eof {
      assert i == |ts| - 1 by {
        if i < |ts| - 1 {
          TokenIsNoEnd(ts, i);
        }
      }
    } else {
      var first := GraphAt(ts, i + 1).value;
      TokenSpells(ts, i);
      KindFixesSymbol(ts[i].symbol);
      GraphSpells(ts, i + 1);
      FileSpells(ts, first.next);
      assert FileAt(ts, i).value[1..] == FileAt(ts, first.next).value;
      Adjoin(Plain(ts), i, first.next, |ts| - 1);
    }
  }

  lemma TokenIsNoEnd(ts: seq<Token>, i: nat)
    requires Scanned(ts) && i < |ts| - 1
    ensures ts[i].Kind() != Eof
  {
    assert WellShaped(ts[i].symbol);
  }

  // ---------------------------------------------------------------------------------------------
  // What is spelled is read back
  // ---------------------------------------------------------------------------------------------

  /** The tokens from `i` on begin with `part`. */
  predicate Here(ts: seq<Token>, i: nat, part: seq<Symbol>) {
    i + |part| <= |ts| && forall k :: 0 <= k < |part| ==> ts[i + k].symbol == part[k]
  }

  lemma HereSplits(ts: seq<Token>, i: nat, a: seq<Symbol>, b: seq<Symbol>)
    requires Here(ts, i, a + b)
    ensures Here(ts, i, a) && Here(ts, i + |a|, b)
  {
    forall k | 0 <= k < |a| ensures ts[i + k].symbol == a[k] {
      assert (a + b)[k] == a[k];
    }
    forall k | 0 <= k < |b| ensures ts[i + |a| + k].symbol == b[k] {
      assert (a + b)[|a| + k] == b[k];
    }
  }

  lemma PairIsRead(ts: seq<Token>, i: nat, p: Pair)
    requires Terminated(ts) && SpellableValue(p.value) && Here(ts, i, SpellPair(p)) && i + 3 < |ts|
    ensures PairAt(ts, i) == Ok(Parsed(p, i + 3))
  {
    hide WellShaped;
    var s := SpellPair(p);
    assert s[0] == Name(p.key) && s[1] == COLON && s[2] == p.value;
  }

  lemma LastPairIsRead(ts: seq<Token>, i: nat, p: Pair, trailing: bool)
    requires Terminated(ts) && SpellableValue(p.value)
    requires Here(ts, i, SpellPair(p) + (Optionally(trailing, COMMA) + [CLOSE]))
    ensures i < |ts| && PairsAt(ts, i) == Ok(Parsed(Pairs([p], trailing), i + 3 + |Optionally(trailing, COMMA)|))
  {
    hide WellShaped, PairAt, SpellPair;
    var tail := Optionally(trailing, COMMA) + [CLOSE];
    PairWidth(p);
    HereSplits(ts, i, SpellPair(p), tail);
    PairIsRead(ts, i, p);
    assert tail[0] == if trailing then COMMA else CLOSE;
    assert trailing ==> tail[1] == CLOSE;
  }

  /** Of several pairs: where the first stands, the comma, and where the others begin. */
  lemma PairsHere(ts: seq<Token>, i: nat, pairs: seq<Pair>, tail: seq<Symbol>)
    requires |pairs| > 1 && Here(ts, i, SpellPairs(pairs) + tail)
    ensures i + 4 < |ts| && Here(ts, i, SpellPair(pairs[0])) && ts[i + 3].symbol == COMMA
    ensures Here(ts, i + 4, SpellPairs(pairs[1..]) + tail) && ts[i + 4].symbol == Name(pairs[1].key)
    ensures |SpellPairs(pairs)| == 4 + |SpellPairs(pairs[1..])|
  {
    hide Here, SpellPair;
    var first, more := SpellPair(pairs[0]), SpellPairs(pairs[1..]);
    PairWidth(pairs[0]);
    Regroup(first, [COMMA] + more, tail);
    Regroup([COMMA], more, tail);
    HereSplits(ts, i, first, [COMMA] + (more + tail));
    HereSplits(ts, i + 3, [COMMA], more + tail);
    HereHead(ts, i + 3, [COMMA]);
    StartOfPairs(pairs[1..]);
    HereHead(ts, i + 4, more + tail);
  }

  lemma OneMorePair(ts: seq<Token>, i: nat, p: Pair)
    requires Terminated(ts) && i + 4 < |ts| && PairAt(ts, i) == Ok(Parsed(p, i + 3))
    requires ts[i + 3].Kind() == Comma && ts[i + 4].Kind() != RBrace && PairsAt(ts, i + 4).Ok?
    ensures var rest := PairsAt(ts, i + 4).value;
            PairsAt(ts, i) == Ok(Parsed(Pairs([p] + rest.value.pairs, rest.value.trailingComma), rest.next))
  {
    hide PairAt;
  }

  lemma {:induction false} PairsAreRead(ts: seq<Token>, i: nat, pairs: seq<Pair>, trailing: bool)
    requires Terminated(ts) && pairs != [] && SpellableBlock(Pairs(pairs, trailing))
    requires Here(ts, i, SpellPairs(pairs) + (Optionally(trailing, COMMA) + [CLOSE]))
    ensures i < |ts| && PairsAt(ts, i) ==
      Ok(Parsed(Pairs(pairs, trailing), i + |SpellPairs(pairs)| + |Optionally(trailing, COMMA)|))
    decreases |pairs|
  {
    hide WellShaped, IsName, PairAt, PairsAt, SpellPair, SpellableValue, Here, Optionally;
    PairWidth(pairs[0]);
    if |pairs| == 1 {
      assert pairs == [pairs[0]];
      LastPairIsRead(ts, i, pairs[0], trailing);
    } else {
      hide SpellPairs;
      PairsHere(ts, i, pairs, Optionally(trailing, COMMA) + [CLOSE]);
      PairIsRead(ts, i, pairs[0]);
      PairsAreRead(ts, i + 4, pairs[1..], trailing);
      OneMorePair(ts, i, pairs[0]);
      assert [pairs[0]] + pairs[1..] == pairs;
    }
  }

  lemma HereHead(ts: seq<Token>, i: nat, part: seq<Symbol>)
    requires Here(ts, i, part) && part != []
    ensures i < |ts| && ts[i].symbol == part[0]
  {
  }

  lemma PairWidth(p: Pair)
    ensures |SpellPair(p)| == 3
  {
  }

  lemma StartOfPairs(pairs: seq<Pair>)
    requires pairs != []
    ensures SpellPairs(pairs) != [] && SpellPairs(pairs)[0] == Name(pairs[0].key)
  {
  }

  lemma BlockIsRead(ts: seq<Token>, i: nat, b: Block)
    requires Terminated(ts) && SpellableBlock(b) && Here(ts, i, SpellBlock(b))
    requires i + |SpellBlock(b)| < |ts| && ts[i + |SpellBlock(b)|].Kind() != LBrace
    ensures i < |ts| && BlockAt(ts, i) == Ok(Parsed(b, i + |SpellBlock(b)|))
  {
    hide WellShaped, IsName, SpellPairs, PairsAt;
    match b
    case NoBlock =>
    case EmptyBlock =>
      assert SpellBlock(b)[0] == OPEN && SpellBlock(b)[1] == CLOSE;
    case Pairs(pairs, trailing) =>
      var tail := Optionally(trailing, COMMA) + [CLOSE];
      HereSplits(ts, i, [OPEN], SpellPairs(pairs) + tail);
      assert ts[i].symbol == [OPEN][0];
      PairsAreRead(ts, i + 1, pairs, trailing);
      StartOfPairs(pairs);
      assert ts[i + 1].symbol == (SpellPairs(pairs) + tail)[0];
      HereSplits(ts, i + 1, SpellPairs(pairs), tail);
      HereSplits(ts, i + 1 + |SpellPairs(pairs)|, Optionally(trailing, COMMA), [CLOSE]);
      var close := i + 1 + |SpellPairs(pairs)| + |Optionally(trailing, COMMA)|;
      assert ts[close].symbol == [CLOSE][0];
      assert |SpellBlock(b)| == close + 1 - i;
  }

  lemma {:induction false} ArgumentsAreRead(ts: seq<Token>, i: nat, args: seq<Symbol>)
    requires Terminated(ts) && Here(ts, i, args) && forall a :: a in args ==> SpellableValue(a)
    requires i + |args| < |ts| && EndsArguments(ts[i + |args|].Kind())
    ensures ArgumentsAt(ts, i) == Ok(Parsed(args, i + |args|))
    decreases |args|
  {
    hide WellShaped, Here;
    if args != [] {
      assert args == [args[0]] + args[1..];
      HereSplits(ts, i, [args[0]], args[1..]);
      HereHead(ts, i, [args[0]]);
      assert args[0] in args;
      ArgumentsAreRead(ts, i + 1, args[1..]);
    }
  }

  /** Tokens that may follow a statement: the next one starts, or the graph ends. */
  predicate MayFollow(kind: TokenKind) {
    kind.Directive? || kind.Node? || kind.Edge? || kind.At? || kind.RBrace?
  }

  lemma SemicolonIsRead(ts: seq<Token>, i: nat, present: bool)
    requires Terminated(ts) && Here(ts, i, Optionally(present, SEMICOLON))
    requires i + |Optionally(present, SEMICOLON)| < |ts|
    requires MayFollow(ts[i + |Optionally(present, SEMICOLON)|].Kind())
    ensures SemicolonAt(ts, i) == Parsed(present, i + |Optionally(present, SEMICOLON)|)
    ensures ts[i].Kind() == Semicolon || (!present && MayFollow(ts[i].Kind()))
  {
    assert present ==> ts[i].symbol == Optionally(present, SEMICOLON)[0];
  }

  lemma DirectiveIsRead(ts: seq<Token>, i: nat, s: Statement)
    requires Terminated(ts) && s.DirectiveText? && SpellableStatement(s) && Here(ts, i, SpellBody(s))
    requires i + 3 < |ts| && SemicolonAt(ts, i + 3).value == s.semicolon
    ensures ts[i].Kind() == Directive && DirectiveAt(ts, i + 1) == Ok(Parsed(s, SemicolonAt(ts, i + 3).next))
  {
    hide WellShaped, IsName;
    var front := SpellBody(s);
    assert front[0] == DIRECTIVE && front[1] == Name(s.name) && front[2] == s.value;
  }

  lemma NodeIsRead(ts: seq<Token>, i: nat, s: Statement, b: nat)
    requires Terminated(ts) && s.NodeText? && SpellableStatement(s) && Here(ts, i, SpellBody(s))
    requires b == i + |SpellBody(s)| < |ts| && ts[b].Kind() != LBrace
    requires SemicolonAt(ts, b).value == s.semicolon
    ensures ts[i].Kind() == Node && NodeAt(ts, i + 1) == Ok(Parsed(s, SemicolonAt(ts, b).next))
  {
    hide WellShaped, IsName, SpellBlock, BlockAt, SpellableBlock;
    var front := [NODE, Name(s.name)];
    HereSplits(ts, i, front, SpellBlock(s.block));
    BlockIsRead(ts, i + 2, s.block);
    assert front[0] == NODE && front[1] == Name(s.name);
  }

  lemma EdgeIsRead(ts: seq<Token>, i: nat, s: Statement, b: nat)
    requires Terminated(ts) && s.EdgeText? && SpellableStatement(s) && Here(ts, i, SpellBody(s))
    requires b == i + |SpellBody(s)| < |ts| && ts[b].Kind() != LBrace
    requires SemicolonAt(ts, b).value == s.semicolon
    ensures ts[i].Kind() == Edge && EdgeAt(ts, i + 1) == Ok(Parsed(s, SemicolonAt(ts, b).next))
  {
    hide WellShaped, IsName, SpellBlock, BlockAt, SpellableBlock;
    var front := [EDGE, Name(s.from), ARROW, Name(s.to)];
    HereSplits(ts, i, front, SpellBlock(s.block));
    BlockIsRead(ts, i + 4, s.block);
    assert front[0] == EDGE && front[1] == Name(s.from) && front[2] == ARROW && front[3] == Name(s.to);
  }

  lemma AnalysisIsRead(ts: seq<Token>, i: nat, s: Statement, b: nat)
    requires Terminated(ts) && s.AnalysisText? && SpellableStatement(s) && Here(ts, i, SpellBody(s))
    requires b == i + |SpellBody(s)| < |ts| && EndsArguments(ts[b].Kind())
    requires SemicolonAt(ts, b).value == s.semicolon
    ensures ts[i].Kind() == At && AnalysisAt(ts, i + 1) == Ok(Parsed(s, SemicolonAt(ts, b).next))
  {
    hide WellShaped, ArgumentsAt;
    var front := [AT, ANALYSIS, s.title];
    HereSplits(ts, i, front, s.args);
    ArgumentsAreRead(ts, i + 3, s.args);
    assert front[0] == AT && front[1] == ANALYSIS && front[2] == s.title;
  }

  lemma StatementIsRead(ts: seq<Token>, i: nat, s: Statement)
    requires Terminated(ts) && SpellableStatement(s) && Here(ts, i, SpellStatement(s))
    requires i + |SpellStatement(s)| < |ts| && MayFollow(ts[i + |SpellStatement(s)|].Kind())
    requires s.AnalysisText? && !s.semicolon ==> ts[i + |SpellStatement(s)|].Kind() == RBrace
    ensures StatementAt(ts, i) == Ok(Parsed(s, i + |SpellStatement(s)|))
  {
    hide SpellableStatement, SemicolonAt, DirectiveAt, NodeAt, EdgeAt, AnalysisAt;
    var body := SpellBody(s);
    HereSplits(ts, i, body, Optionally(s.semicolon, SEMICOLON));
    var b := i + |body|;
    SemicolonIsRead(ts, b, s.semicolon);
    if s.DirectiveText? {
      DirectiveIsRead(ts, i, s);
    } else if s.NodeText? {
      NodeIsRead(ts, i, s, b);
    } else if s.EdgeText? {
      EdgeIsRead(ts, i, s, b);
    } else {
      AnalysisIsRead(ts, i, s, b);
    }
  }

  lemma StatementStarts(s: Statement)
    ensures SpellStatement(s) != [] && MayFollow(SpellStatement(s)[0].kind) && SpellStatement(s)[0].kind != RBrace
  {
  }

  lemma {:induction false} StatementsAreRead(ts: seq<Token>, i: nat, ss: seq<Statement>)
    requires Terminated(ts) && SpellableStatements(ss) && Here(ts, i, SpellStatements(ss) + [CLOSE])
    ensures i < |ts| && StatementsAt(ts, i) == Ok(Parsed(ss, i + |SpellStatements(ss)|))
    decreases |ss|
  {
    hide SpellStatement, SpellableStatement, StatementAt;
    if ss == [] {
      assert [] + [CLOSE] == [CLOSE];
      assert ts[i].symbol == [CLOSE][0];
    } else {
      var first, more := SpellStatement(ss[0]), SpellStatements(ss[1..]) + [CLOSE];
      assert SpellStatements(ss) + [CLOSE] == first + more;
      HereSplits(ts, i, first, more);
      StatementStarts(ss[0]);
      assert ts[i].symbol == first[0];
      assert ts[i + |first|].symbol == more[0];
      if |ss| == 1 {
        assert more == [CLOSE];
      } else {
        StatementStarts(ss[1]);
        assert more[0] == SpellStatement(ss[1])[0];
      }
      StatementIsRead(ts, i, ss[0]);
      StatementsAreRead(ts, i + |first|, ss[1..]);
      assert [ss[0]] + ss[1..] == ss;
    }
  }

  lemma GraphIsRead(ts: seq<Token>, i: nat, g: GraphText)
    requires Terminated(ts) && SpellableGraph(g) && Here(ts, i, SpellGraph(g)) && i + |SpellGraph(g)| < |ts|
    ensures ts[i].symbol == GRAPH && GraphAt(ts, i + 1) == Ok(Parsed(g, i + |SpellGraph(g)|))
  {
    hide SpellStatements, SpellableStatements, StatementsAt, IsName;
    var front := [GRAPH, Name(g.name), OPEN];
    var body := SpellStatements(g.statements);
    HereSplits(ts, i, front, body + [CLOSE]);
    HereSplits(ts, i + 3, body, [CLOSE]);
    StatementsAreRead(ts, i + 3, g.statements);
    assert front[0] == GRAPH && front[1] == Name(g.name) && front[2] == OPEN;
    assert ts[i + 3 + |body|].symbol == [CLOSE][0];
  }

  /** Reading the tokens that spell a file, followed by the end marker, gives that file. */
  lemma {:induction false} FileIsRead(ts: seq<Token>, i: nat, file: FileText)
    requires Terminated(ts) && SpellableFile(file) && i + |SpellFile(file)| == |ts| - 1 && Here(ts, i, SpellFile(file))
    ensures FileAt(ts, i) == Ok(file)
    decreases |file|
  {
    hide SpellGraph, SpellableGraph, GraphAt;
    if file != [] {
      HereSplits(ts, i, SpellGraph(file[0]), SpellFile(file[1..]));
      GraphIsRead(ts, i, file[0]);
      FileIsRead(ts, i + |SpellGraph(file[0])|, file[1..]);
      assert [file[0]] + file[1..] == file;
    }
  }

  /** On a scanned token list, parsing yields exactly the text that the list spells, and fails when there is none. */
  lemma ParseExactlySpelled(ts: seq<Token>, file: FileText)
    requires Scanned(ts)
    ensures FileAt(ts, 0) == Ok(file)
       <==> SpellableFile(file) && Plain(ts) == SpellFile(file) + [ts[|ts| - 1].symbol]
  {
    hide WellShaped, SpellGraph, SpellFile, SpellableGraph, FileAt;
    var ss := Plain(ts);
    if FileAt(ts, 0) == Ok(file) {
      FileSpells(ts, 0);
      assert ss == ss[0..|ts| - 1] + [ss[|ts| - 1]];
    }
    if SpellableFile(file) && ss == SpellFile(file) + [ts[|ts| - 1].symbol] {
      forall k | 0 <= k < |SpellFile(file)| ensures ts[0 + k].symbol == SpellFile(file)[k] {
        assert ss[k] == SpellFile(file)[k];
      }
      FileIsRead(ts, 0, file);
    }
  }
}
