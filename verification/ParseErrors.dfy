/**
 Where a parse error is reported (graph-forge/src/parser.ts, lines 81-212): at the first token that no text has there.
 */
module ParseErrors {
  import opened Outcomes
  import opened Tokens
  import opened LexerSpec
  import opened Syntax
  import opened ParserSpec
  import opened ParserProofs
  import opened RoundTrip

  /** The lists have their first `n` tokens in common. */
  predicate Agree(ts: seq<Token>, ts': seq<Token>, n: nat) {
    n <= |ts| && n <= |ts'| && forall j :: 0 <= j < n ==> ts'[j] == ts[j]
  }

  /** The tokens from `i` up to `k` begin `part`. */
  predicate Begins(ts: seq<Token>, i: nat, k: nat, part: seq<Symbol>) {
    i <= k <= |ts| && k - i <= |part| && forall j :: 0 <= j < k - i ==> ts[i + j].symbol == part[j]
  }

  lemma BeginsMore(ts: seq<Token>, i: nat, k: nat, a: seq<Symbol>, b: seq<Symbol>)
    requires Begins(ts, i, k, a)
    ensures Begins(ts, i, k, a + b)
  {
  }

  lemma BeginsAfter(ts: seq<Token>, i: nat, m: nat, k: nat, a: seq<Symbol>, b: seq<Symbol>)
    requires i <= m <= |ts| && Plain(ts)[i..m] == a && Begins(ts, m, k, b)
    ensures Begins(ts, i, k, a + b)
  {
    forall j | 0 <= j < k - i ensures ts[i + j].symbol == (a + b)[j] {
      if j < m - i {
        assert Plain(ts)[i..m][j] == ts[i + j].symbol;
      } else {
        assert ts[m + (j - (m - i))].symbol == b[j - (m - i)];
      }
    }
  }

  /** Two lists that a reader of `ts` up to `k` cannot tell apart from one another. */
  ghost predicate Twin(ts: seq<Token>, ts': seq<Token>, i: nat) {
    Scanned(ts) && Terminated(ts') && i < |ts| && i < |ts'|
  }

  const X := Name("x")

  lemma SomeName()
    ensures IsName("x") && SpellableValue(X)
  {
  }

  /** The lexeme at `i` if it is a name, else any name. */
  function NameAt(ts: seq<Token>, i: nat): string
    requires i < |ts|
  {
    if ts[i].Kind() == Identifier then ts[i].symbol.lexeme else "x"
  }

  lemma NameAtIsName(ts: seq<Token>, i: nat)
    requires Scanned(ts) && i < |ts|
    ensures IsName(NameAt(ts, i))
    ensures ts[i].Kind() == Identifier ==> ts[i].symbol == Name(NameAt(ts, i)) && i + 1 < |ts|
  {
    SomeName();
    if ts[i].Kind() == Identifier {
      TokenSpells(ts, i);
      KindFixesSymbol(ts[i].symbol);
    }
  }

  lemma KindIsSymbol(ts: seq<Token>, i: nat)
    requires Scanned(ts) && i < |ts| && ts[i].Kind() != Eof
    ensures i + 1 < |ts| && WellShaped(ts[i].symbol)
    ensures ts[i].Kind() == LBrace ==> ts[i].symbol == OPEN
    ensures ts[i].Kind() == RBrace ==> ts[i].symbol == CLOSE
    ensures ts[i].Kind() == Colon ==> ts[i].symbol == COLON
    ensures ts[i].Kind() == Comma ==> ts[i].symbol == COMMA
    ensures ts[i].Kind() == Arrow ==> ts[i].symbol == ARROW
    ensures ts[i].Kind() == At ==> ts[i].symbol == AT
    ensures ts[i].Kind() == Graph ==> ts[i].symbol == GRAPH
    ensures ts[i].Kind() == Node ==> ts[i].symbol == NODE
    ensures ts[i].Kind() == Edge ==> ts[i].symbol == EDGE
    ensures ts[i].Kind() == Directive ==> ts[i].symbol == DIRECTIVE
    ensures ts[i].Kind() == Analysis ==> ts[i].symbol == ANALYSIS
  {
    TokenSpells(ts, i);
    KindFixesSymbol(ts[i].symbol);
  }

  // ---------------------------------------------------------------------------------------------
  // Attribute blocks
  // ---------------------------------------------------------------------------------------------

  lemma PairErrs(ts: seq<Token>, ts': seq<Token>, i: nat) returns (k: nat, p: Pair)
    requires Twin(ts, ts', i) && PairAt(ts, i).Err?
    ensures i <= k < |ts| && ts[k] == PairAt(ts, i).error.token
    ensures IsName(p.key) && SpellableValue(p.value) && Begins(ts, i, k, SpellPair(p))
    ensures Agree(ts, ts', k + 1) ==> PairAt(ts', i) == PairAt(ts, i)
  {
    hide WellShaped, IsName;
    SomeName();
    NameAtIsName(ts, i);
    p := Pair(NameAt(ts, i), X);
    if ts[i].Kind() != Identifier {
      k := i;
    } else {
      if ts[i + 1].Kind() != Colon {
        k := i + 1;
      } else {
        KindIsSymbol(ts, i + 1);
        k := i + 2;
      }
    }
  }

  lemma PairOks(ts: seq<Token>, ts': seq<Token>, i: nat)
    requires Twin(ts, ts', i) && PairAt(ts, i).Ok? && Agree(ts, ts', i + 4)
    ensures PairAt(ts', i) == PairAt(ts, i)
  {
  }

  lemma {:induction false} PairsErrs(ts: seq<Token>, ts': seq<Token>, i: nat) returns (k: nat, pairs: seq<Pair>)
    requires Twin(ts, ts', i) && PairsAt(ts, i).Err?
    ensures i <= k < |ts| && ts[k] == PairsAt(ts, i).error.token
    ensures SpellableBlock(Pairs(pairs, false)) && Begins(ts, i, k, SpellPairs(pairs))
    ensures Agree(ts, ts', k + 1) ==> PairsAt(ts', i) == PairsAt(ts, i)
    decreases |ts| - i
  {
    hide WellShaped, IsName, PairAt, SpellPair, SpellableValue, Begins;
    if PairAt(ts, i).Err? {
      var p;
      k, p := PairErrs(ts, ts', i);
      pairs := [p];
    } else {
      var first := PairAt(ts, i).value.value;
      PairSpells(ts, i);
      KindIsSymbol(ts, i + 3);
      var rest;
      k, rest := PairsErrsLater(ts, ts', i);
      pairs := [first] + rest;
      assert pairs[1..] == rest;
      Adjoin(Plain(ts), i, i + 3, i + 4);
      TokenSpells(ts, i + 3);
      BeginsAfter(ts, i, i + 4, k, SpellPair(first) + [COMMA], SpellPairs(rest));
      Regroup(SpellPair(first), [COMMA], SpellPairs(rest));
      if Agree(ts, ts', k + 1) {
        PairOks(ts, ts', i);
      }
    }
  }

  lemma {:induction false} PairsErrsLater(ts: seq<Token>, ts': seq<Token>, i: nat) returns (k: nat, rest: seq<Pair>)
    requires Twin(ts, ts', i) && PairAt(ts, i).Ok? && PairsAt(ts, i).Err?
    ensures ts[i + 3].Kind() == Comma && i + 4 < |ts| && ts[i + 4].Kind() != RBrace
    ensures i + 4 <= k < |ts| && ts[k] == PairsAt(ts, i).error.token
    ensures SpellableBlock(Pairs(rest, false)) && Begins(ts, i + 4, k, SpellPairs(rest))
    ensures PairsAt(ts, i) == Err(PairsAt(ts, i + 4).error)
    ensures Agree(ts, ts', k + 1) ==> PairsAt(ts', i + 4) == PairsAt(ts, i + 4)
    decreases |ts| - i, 0
  {
    hide WellShaped, IsName, PairAt, SpellPair, SpellableValue, Begins;
    if i + 4 < |ts'| {
      k, rest := PairsErrs(ts, ts', i + 4);
    } else {
      k, rest := PairsErrs(ts, ts, i + 4);
    }
  }

  lemma {:induction false} PairsOks(ts: seq<Token>, ts': seq<Token>, i: nat)
    requires Twin(ts, ts', i) && PairsAt(ts, i).Ok? && Agree(ts, ts', PairsAt(ts, i).value.next + 1)
    ensures PairsAt(ts', i) == PairsAt(ts, i)
    decreases |ts| - i
  {
    hide WellShaped, PairAt;
    PairOks(ts, ts', i);
    if ts[i + 3].Kind() == Comma && ts[i + 4].Kind() != RBrace {
      PairsOks(ts, ts', i + 4);
    }
  }

  lemma BlockErrs(ts: seq<Token>, ts': seq<Token>, i: nat) returns (k: nat, b: Block)
    requires Twin(ts, ts', i) && BlockAt(ts, i).Err?
    ensures i < k < |ts| && ts[k] == BlockAt(ts, i).error.token
    ensures SpellableBlock(b) && Begins(ts, i, k, SpellBlock(b))
    ensures Agree(ts, ts', k + 1) ==> BlockAt(ts', i) == BlockAt(ts, i)
  {
    hide WellShaped, PairsAt, SpellBlock, SpellableBlock, Begins, Plain;
    KindIsSymbol(ts, i);
    if PairsAt(ts, i + 1).Err? {
      k, b := BlockBreaks(ts, if i + 1 < |ts'| then ts' else ts, i);
    } else {
      k, b := PairsAt(ts, i + 1).value.next, PairsAt(ts, i + 1).value.value;
      BlockBeginsWith(ts, i);
      if Agree(ts, ts', k + 1) {
        PairsOks(ts, ts', i + 1);
      }
    }
  }

  lemma BlockBreaks(ts: seq<Token>, ts': seq<Token>, i: nat) returns (k: nat, b: Block)
    requires Twin(ts, ts', i + 1) && ts[i].symbol == OPEN && PairsAt(ts, i + 1).Err?
    ensures i < k < |ts| && ts[k] == PairsAt(ts, i + 1).error.token
    ensures SpellableBlock(b) && Begins(ts, i, k, SpellBlock(b))
    ensures Agree(ts, ts', k + 1) ==> PairsAt(ts', i + 1) == PairsAt(ts, i + 1)
  {
    hide WellShaped, PairsAt, SpellPairs, SpellableBlock, Begins, Plain;
    TokenSpells(ts, i);
    var pairs;
    k, pairs := PairsErrs(ts, ts', i + 1);
    b := Pairs(pairs, false);
    BeginsMore(ts, i + 1, k, SpellPairs(pairs), [] + [CLOSE]);
    BeginsAfter(ts, i, i + 1, k, [OPEN], SpellPairs(pairs) + ([] + [CLOSE]));
  }

  lemma {:induction false} BlockBeginsWith(ts: seq<Token>, i: nat)
    requires Scanned(ts) && i + 1 < |ts| && ts[i].symbol == OPEN && PairsAt(ts, i + 1).Ok?
    ensures var r := PairsAt(ts, i + 1).value;
            SpellableBlock(r.value) && Begins(ts, i, r.next, SpellBlock(r.value))
  {
    hide WellShaped, PairsAt, SpellPairs, SpellableBlock, Begins, Plain;
    TokenSpells(ts, i);
    var r := PairsAt(ts, i + 1).value;
    PairsSpell(ts, i + 1);
    var inner := SpellPairs(r.value.pairs) + Optionally(r.value.trailingComma, COMMA);
    BeginsHere(ts, i + 1, r.next, inner);
    BeginsMore(ts, i + 1, r.next, inner, [CLOSE]);
    Regroup(SpellPairs(r.value.pairs), Optionally(r.value.trailingComma, COMMA), [CLOSE]);
    BeginsAfter(ts, i, i + 1, r.next, [OPEN], inner + [CLOSE]);
  }

  lemma BeginsHere(ts: seq<Token>, i: nat, k: nat, part: seq<Symbol>)
    requires i <= k <= |ts| && Plain(ts)[i..k] == part
    ensures Begins(ts, i, k, part)
  {
    forall j | 0 <= j < k - i ensures ts[i + j].symbol == part[j] {
      assert Plain(ts)[i..k][j] == ts[i + j].symbol;
    }
  }

  lemma BlockOks(ts: seq<Token>, ts': seq<Token>, i: nat)
    requires Twin(ts, ts', i) && BlockAt(ts, i).Ok? && Agree(ts, ts', BlockAt(ts, i).value.next + 1)
    ensures BlockAt(ts', i) == BlockAt(ts, i)
  {
    hide WellShaped, PairsAt;
    if ts[i].Kind() == LBrace && ts[i + 1].Kind() != RBrace {
      PairsOks(ts, ts', i + 1);
    }
  }

  // ---------------------------------------------------------------------------------------------
  // Statements
  // ---------------------------------------------------------------------------------------------

  lemma DirectiveErrs(ts: seq<Token>, ts': seq<Token>, i: nat) returns (k: nat, s: Statement)
    requires Twin(ts, ts', i) && i + 1 < |ts| && ts[i].symbol == DIRECTIVE && DirectiveAt(ts, i + 1).Err?
    ensures i < k < |ts| && ts[k] == DirectiveAt(ts, i + 1).error.token
    ensures SpellableStatement(s) && Begins(ts, i, k, SpellStatement(s))
    ensures Agree(ts, ts', k + 1) ==> DirectiveAt(ts', i + 1) == DirectiveAt(ts, i + 1)
  {
    hide WellShaped, IsName;
    SomeName();
    NameAtIsName(ts, i + 1);
    s := DirectiveText(NameAt(ts, i + 1), X, false);
    k := if ts[i + 1].Kind() != Identifier then i + 1 else i + 2;
  }

  lemma NodeErrs(ts: seq<Token>, ts': seq<Token>, i: nat) returns (k: nat, s: Statement)
    requires Twin(ts, ts', i) && i + 1 < |ts| && ts[i].symbol == NODE && NodeAt(ts, i + 1).Err?
    ensures i < k < |ts| && ts[k] == NodeAt(ts, i + 1).error.token
    ensures SpellableStatement(s) && Begins(ts, i, k, SpellStatement(s))
    ensures Agree(ts, ts', k + 1) ==> NodeAt(ts', i + 1) == NodeAt(ts, i + 1)
  {
    hide WellShaped, IsName, BlockAt, SpellBlock, SpellableBlock, SemicolonAt, Plain;
    SomeName();
    NameAtIsName(ts, i + 1);
    if ts[i + 1].Kind() != Identifier {
      s, k := NodeText(NameAt(ts, i + 1), NoBlock, false), i + 1;
      assert SpellableBlock(NoBlock) by { NoBlockIsSpellable(); }
      BeginsShort(ts, i, [NODE, Name(NameAt(ts, i + 1))]);
      BeginsMore(ts, i, k, [NODE, Name(NameAt(ts, i + 1))], SpellBlock(NoBlock));
      BeginsMore(ts, i, k, SpellBody(s), []);
    } else {
      var b;
      k, b := BlockErrs(ts, if i + 2 < |ts'| then ts' else ts, i + 2);
      s := NodeText(NameAt(ts, i + 1), b, false);
      TwoTokens(ts, i);
      BeginsAfter(ts, i, i + 2, k, [NODE, Name(s.name)], SpellBlock(b));
      BeginsMore(ts, i, k, SpellBody(s), []);
    }
  }

  lemma NoBlockIsSpellable()
    ensures SpellableBlock(NoBlock)
  {
  }

  lemma BeginsShort(ts: seq<Token>, i: nat, part: seq<Symbol>)
    requires i < |ts| && part != [] && ts[i].symbol == part[0]
    ensures Begins(ts, i, i + 1, part)
  {
  }

  lemma TwoTokens(ts: seq<Token>, i: nat)
    requires i + 1 < |ts|
    ensures Plain(ts)[i..i + 2] == [ts[i].symbol, ts[i + 1].symbol]
  {
  }

  lemma EdgeHeadErrs(ts: seq<Token>, ts': seq<Token>, i: nat) returns (k: nat, s: Statement)
    requires Twin(ts, ts', i) && i + 1 < |ts| && ts[i].symbol == EDGE && EdgeAt(ts, i + 1).Err?
    requires ts[i + 1].Kind() != Identifier || ts[i + 2].Kind() != Arrow || ts[i + 3].Kind() != Identifier
    ensures i < k < |ts| && ts[k] == EdgeAt(ts, i + 1).error.token
    ensures SpellableStatement(s) && Begins(ts, i, k, SpellStatement(s))
    ensures Agree(ts, ts', k + 1) ==> EdgeAt(ts', i + 1) == EdgeAt(ts, i + 1)
  {
    hide WellShaped, IsName, BlockAt, SemicolonAt, Plain;
    SomeName();
    NameAtIsName(ts, i + 1);
    s := EdgeText(NameAt(ts, i + 1), "x", NoBlock, false);
    var part := [EDGE, Name(NameAt(ts, i + 1)), ARROW, X];
    if ts[i + 1].Kind() != Identifier {
      k := i + 1;
    } else if ts[i + 2].Kind() != Arrow {
      k := i + 2;
    } else {
      KindIsSymbol(ts, i + 2);
      k := i + 3;
    }
    assert Begins(ts, i, k, part);
    BeginsMore(ts, i, k, part, []);
    BeginsMore(ts, i, k, part + [], []);
  }

  lemma EdgeErrs(ts: seq<Token>, ts': seq<Token>, i: nat) returns (k: nat, s: Statement)
    requires Twin(ts, ts', i) && i + 1 < |ts| && ts[i].symbol == EDGE && EdgeAt(ts, i + 1).Err?
    ensures i < k < |ts| && ts[k] == EdgeAt(ts, i + 1).error.token
    ensures SpellableStatement(s) && Begins(ts, i, k, SpellStatement(s))
    ensures Agree(ts, ts', k + 1) ==> EdgeAt(ts', i + 1) == EdgeAt(ts, i + 1)
  {
    hide WellShaped, IsName, BlockAt, SpellBlock, SpellableBlock, SemicolonAt, Plain, Begins;
    if ts[i + 1].Kind() != Identifier || ts[i + 2].Kind() != Arrow || ts[i + 3].Kind() != Identifier {
      k, s := EdgeHeadErrs(ts, ts', i);
    } else {
      NameAtIsName(ts, i + 1);
      KindIsSymbol(ts, i + 2);
      NameAtIsName(ts, i + 3);
      var b;
      k, b := BlockErrs(ts, if i + 4 < |ts'| then ts' else ts, i + 4);
      s := EdgeText(NameAt(ts, i + 1), NameAt(ts, i + 3), b, false);
      TwoTokens(ts, i);
      TwoTokens(ts, i + 2);
      Adjoin(Plain(ts), i, i + 2, i + 4);
      var front := [EDGE, Name(s.from), ARROW, Name(s.to)];
      assert front == [EDGE, Name(s.from)] + [ARROW, Name(s.to)];
      BeginsAfter(ts, i, i + 4, k, front, SpellBlock(b));
      BeginsMore(ts, i, k, SpellBody(s), []);
    }
  }

  lemma {:induction false} ArgumentsErr(ts: seq<Token>, ts': seq<Token>, i: nat) returns (k: nat, args: seq<Symbol>)
    requires Twin(ts, ts', i) && ArgumentsAt(ts, i).Err?
    ensures i <= k < |ts| && ts[k] == ArgumentsAt(ts, i).error.token
    ensures (forall a :: a in args ==> SpellableValue(a)) && Begins(ts, i, k, args)
    ensures Agree(ts, ts', k + 1) ==> ArgumentsAt(ts', i) == ArgumentsAt(ts, i)
    decreases |ts| - i
  {
    hide WellShaped;
    if ValueAt(ts, i).Err? {
      k, args := i, [];
    } else {
      TokenSpells(ts, i);
      var rest;
      k, rest := ArgumentsErr(ts, if i + 1 < |ts'| then ts' else ts, i + 1);
      args := [ts[i].symbol] + rest;
      BeginsAfter(ts, i, i + 1, k, [ts[i].symbol], rest);
    }
  }

  lemma {:induction false} ArgumentsOk(ts: seq<Token>, ts': seq<Token>, i: nat)
    requires Twin(ts, ts', i) && ArgumentsAt(ts, i).Ok? && Agree(ts, ts', ArgumentsAt(ts, i).value.next + 1)
    ensures ArgumentsAt(ts', i) == ArgumentsAt(ts, i)
    decreases |ts| - i
  {
    hide WellShaped;
    if !EndsArguments(ts[i].Kind()) {
      ArgumentsOk(ts, ts', i + 1);
    }
  }

  lemma AnalysisHeadErrs(ts: seq<Token>, ts': seq<Token>, i: nat) returns (k: nat, s: Statement)
    requires Twin(ts, ts', i) && i + 1 < |ts| && ts[i].symbol == AT && AnalysisAt(ts, i + 1).Err?
    requires ts[i + 1].Kind() != Analysis || !IsValueKind(ts[i + 2].Kind())
    ensures i < k < |ts| && ts[k] == AnalysisAt(ts, i + 1).error.token
    ensures SpellableStatement(s) && Begins(ts, i, k, SpellStatement(s))
    ensures Agree(ts, ts', k + 1) ==> AnalysisAt(ts', i + 1) == AnalysisAt(ts, i + 1)
  {
    hide WellShaped, ArgumentsAt, SemicolonAt, Plain;
    SomeName();
    s := AnalysisText(X, [], false);
    k := if ts[i + 1].Kind() != Analysis then i + 1 else i + 2;
    if k == i + 2 {
      KindIsSymbol(ts, i + 1);
    }
    var part := [AT, ANALYSIS, X];
    assert Begins(ts, i, k, part);
    BeginsMore(ts, i, k, part, []);
    BeginsMore(ts, i, k, part + [], []);
  }

  lemma AnalysisErrs(ts: seq<Token>, ts': seq<Token>, i: nat) returns (k: nat, s: Statement)
    requires Twin(ts, ts', i) && i + 1 < |ts| && ts[i].symbol == AT && AnalysisAt(ts, i + 1).Err?
    ensures i < k < |ts| && ts[k] == AnalysisAt(ts, i + 1).error.token
    ensures SpellableStatement(s) && Begins(ts, i, k, SpellStatement(s))
    ensures Agree(ts, ts', k + 1) ==> AnalysisAt(ts', i + 1) == AnalysisAt(ts, i + 1)
  {
    hide WellShaped, ArgumentsAt, SemicolonAt, Plain, Begins;
    if ts[i + 1].Kind() != Analysis || !IsValueKind(ts[i + 2].Kind()) {
      k, s := AnalysisHeadErrs(ts, ts', i);
    } else {
      KindIsSymbol(ts, i + 1);
      KindIsSymbol(ts, i + 2);
      var args;
      k, args := ArgumentsErr(ts, if i + 3 < |ts'| then ts' else ts, i + 3);
      s := AnalysisText(ts[i + 2].symbol, args, false);
      TwoTokens(ts, i);
      TokenSpells(ts, i + 2);
      Adjoin(Plain(ts), i, i + 2, i + 3);
      assert [AT, ANALYSIS] + [s.title] == [AT, ANALYSIS, s.title];
      BeginsAfter(ts, i, i + 3, k, [AT, ANALYSIS, s.title], args);
      BeginsMore(ts, i, k, SpellBody(s), []);
    }
  }

  /** A statement that cannot be read, but starts with a keyword. */
  lemma StatementErrs(ts: seq<Token>, ts': seq<Token>, i: nat) returns (k: nat, s: Statement)
    requires Twin(ts, ts', i) && StatementAt(ts, i).Err? && ts[i].Kind() in {Directive, Node, Edge, At}
    ensures i < k < |ts| && ts[k] == StatementAt(ts, i).error.token
    ensures SpellableStatement(s) && Begins(ts, i, k, SpellStatement(s))
    ensures Agree(ts, ts', k + 1) ==> StatementAt(ts', i) == StatementAt(ts, i)
  {
    hide WellShaped, DirectiveAt, NodeAt, EdgeAt, AnalysisAt, SpellStatement, SpellableStatement, Begins;
    KindIsSymbol(ts, i);
    var kind := ts[i].Kind();
    if kind == Directive {
      k, s := DirectiveErrs(ts, ts', i);
    } else if kind == Node {
      k, s := NodeErrs(ts, ts', i);
    } else if kind == Edge {
      k, s := EdgeErrs(ts, ts', i);
    } else {
      k, s := AnalysisErrs(ts, ts', i);
    }
  }

  lemma SemicolonOk(ts: seq<Token>, ts': seq<Token>, i: nat)
    requires Twin(ts, ts', i) && Agree(ts, ts', i + 1)
    ensures SemicolonAt(ts', i) == SemicolonAt(ts, i)
  {
  }

  lemma NodeOks(ts: seq<Token>, ts': seq<Token>, i: nat)
    requires Twin(ts, ts', i) && NodeAt(ts, i).Ok? && Agree(ts, ts', NodeAt(ts, i).value.next + 1)
    ensures NodeAt(ts', i) == NodeAt(ts, i)
  {
    hide WellShaped, BlockAt;
    BlockOks(ts, ts', i + 1);
    SemicolonOk(ts, ts', BlockAt(ts, i + 1).value.next);
  }

  lemma EdgeOks(ts: seq<Token>, ts': seq<Token>, i: nat)
    requires Twin(ts, ts', i) && EdgeAt(ts, i).Ok? && Agree(ts, ts', EdgeAt(ts, i).value.next + 1)
    ensures EdgeAt(ts', i) == EdgeAt(ts, i)
  {
    hide WellShaped, BlockAt;
    BlockOks(ts, ts', i + 3);
    SemicolonOk(ts, ts', BlockAt(ts, i + 3).value.next);
  }

  lemma AnalysisOks(ts: seq<Token>, ts': seq<Token>, i: nat)
    requires Twin(ts, ts', i) && AnalysisAt(ts, i).Ok? && Agree(ts, ts', AnalysisAt(ts, i).value.next + 1)
    ensures AnalysisAt(ts', i) == AnalysisAt(ts, i)
  {
    hide WellShaped, ArgumentsAt;
    ArgumentsOk(ts, ts', i + 2);
    SemicolonOk(ts, ts', ArgumentsAt(ts, i + 2).value.next);
  }

  lemma StatementOks(ts: seq<Token>, ts': seq<Token>, i: nat)
    requires Twin(ts, ts', i) && StatementAt(ts, i).Ok? && Agree(ts, ts', StatementAt(ts, i).value.next + 1)
    ensures StatementAt(ts', i) == StatementAt(ts, i)
  {
    hide WellShaped, NodeAt, EdgeAt, AnalysisAt;
    if ts[i].Kind() == Node {
      NodeOks(ts, ts', i + 1);
    } else if ts[i].Kind() == Edge {
      EdgeOks(ts, ts', i + 1);
    } else if ts[i].Kind() == At {
      AnalysisOks(ts, ts', i + 1);
    }
  }

  lemma {:induction false} StatementsErr(ts: seq<Token>, ts': seq<Token>, i: nat) returns (k: nat, ss: seq<Statement>)
    requires Twin(ts, ts', i) && StatementsAt(ts, i).Err?
    ensures i <= k < |ts| && ts[k] == StatementsAt(ts, i).error.token
    ensures SpellableStatements(ss) && Begins(ts, i, k, SpellStatements(ss))
    ensures Agree(ts, ts', k + 1) ==> StatementsAt(ts', i) == StatementsAt(ts, i)
    decreases |ts| - i
  {
    hide WellShaped, StatementAt, SpellStatement, SpellableStatement, Begins, Plain;
    if StatementAt(ts, i).Err? {
      if ts[i].Kind() in {Directive, Node, Edge, At} {
        var s;
        k, s := StatementErrs(ts, ts', i);
        ss := [s];
        BeginsMore(ts, i, k, SpellStatement(s), []);
      } else {
        k, ss := i, [];
        NoStatement(ts, ts', i);
      }
    } else {
      var first := StatementAt(ts, i).value;
      StatementSpells(ts, i);
      AnalysisEnds(ts, i);
      var rest;
      k, rest := StatementsErr(ts, if first.next < |ts'| then ts' else ts, first.next);
      ss := [first.value] + rest;
      assert ss[1..] == rest;
      BeginsAfter(ts, i, first.next, k, SpellStatement(first.value), SpellStatements(rest));
      if Agree(ts, ts', k + 1) {
        StatementOks(ts, ts', i);
      }
    }
  }

  lemma NoStatement(ts: seq<Token>, ts': seq<Token>, i: nat)
    requires Twin(ts, ts', i) && ts[i].Kind() !in {Directive, Node, Edge, At}
    ensures StatementAt(ts, i) == Err(ParseError(UnexpectedStatement, ts[i])) && Begins(ts, i, i, [])
    ensures Agree(ts, ts', i + 1) ==> StatementAt(ts', i) == StatementAt(ts, i)
  {
  }

  /** An analysis without a semicolon is the last statement. */
  lemma AnalysisEnds(ts: seq<Token>, i: nat)
    requires Scanned(ts) && i < |ts| && StatementAt(ts, i).Ok?
    ensures var first := StatementAt(ts, i).value;
            first.value.AnalysisText? && !first.value.semicolon ==> EndsStatements(ts[first.next].Kind())
  {
    hide WellShaped, ArgumentsAt, DirectiveAt, NodeAt, EdgeAt;
  }

  lemma {:induction false} StatementsOk(ts: seq<Token>, ts': seq<Token>, i: nat)
    requires Twin(ts, ts', i) && StatementsAt(ts, i).Ok? && Agree(ts, ts', StatementsAt(ts, i).value.next + 1)
    ensures StatementsAt(ts', i) == StatementsAt(ts, i)
    decreases |ts| - i
  {
    hide WellShaped, StatementAt;
    if !EndsStatements(ts[i].Kind()) {
      StatementOks(ts, ts', i);
      StatementsOk(ts, ts', StatementAt(ts, i).value.next);
    }
  }

  // ---------------------------------------------------------------------------------------------
  // Graphs and files
  // ---------------------------------------------------------------------------------------------

  lemma GraphHeadErrs(ts: seq<Token>, ts': seq<Token>, i: nat) returns (k: nat, g: GraphText)
    requires Twin(ts, ts', i) && i + 1 < |ts| && ts[i].symbol == GRAPH && GraphAt(ts, i + 1).Err?
    requires ts[i + 1].Kind() != Identifier || ts[i + 2].Kind() != LBrace
    ensures i < k < |ts| && ts[k] == GraphAt(ts, i + 1).error.token
    ensures SpellableGraph(g) && Begins(ts, i, k, SpellGraph(g))
    ensures Agree(ts, ts', k + 1) ==> GraphAt(ts', i + 1) == GraphAt(ts, i + 1)
  {
    hide WellShaped, IsName, StatementsAt, Plain;
    NameAtIsName(ts, i + 1);
    g := GraphText(NameAt(ts, i + 1), []);
    k := if ts[i + 1].Kind() != Identifier then i + 1 else i + 2;
    var head := [GRAPH, Name(g.name), OPEN];
    assert Begins(ts, i, k, head);
    BeginsMore(ts, i, k, head, SpellStatements([]) + [CLOSE]);
  }

  lemma GraphErrs(ts: seq<Token>, ts': seq<Token>, i: nat) returns (k: nat, g: GraphText)
    requires Twin(ts, ts', i) && i + 1 < |ts| && ts[i].symbol == GRAPH && GraphAt(ts, i + 1).Err?
    ensures i < k < |ts| && ts[k] == GraphAt(ts, i + 1).error.token
    ensures SpellableGraph(g) && Begins(ts, i, k, SpellGraph(g))
    ensures Agree(ts, ts', k + 1) ==> GraphAt(ts', i + 1) == GraphAt(ts, i + 1)
  {
    hide WellShaped, IsName, StatementsAt, SpellStatements, SpellableStatements, Begins, Plain;
    if ts[i + 1].Kind() != Identifier || ts[i + 2].Kind() != LBrace {
      k, g := GraphHeadErrs(ts, ts', i);
    } else {
      GraphHeadSpells(ts, i + 1);
      var head := [GRAPH, Name(ts[i + 1].symbol.lexeme), OPEN];
      var ss;
      if StatementsAt(ts, i + 3).Err? {
        k, ss := StatementsErr(ts, if i + 3 < |ts'| then ts' else ts, i + 3);
      } else {
        k, ss := StatementsAt(ts, i + 3).value.next, StatementsAt(ts, i + 3).value.value;
        StatementsSpell(ts, i + 3);
        BeginsHere(ts, i + 3, k, SpellStatements(ss));
        if Agree(ts, ts', k + 1) {
          StatementsOk(ts, ts', i + 3);
        }
      }
      g := GraphText(ts[i + 1].symbol.lexeme, ss);
      BeginsMore(ts, i + 3, k, SpellStatements(ss), [CLOSE]);
      BeginsAfter(ts, i, i + 3, k, head, SpellStatements(ss) + [CLOSE]);
    }
  }

  lemma GraphOks(ts: seq<Token>, ts': seq<Token>, i: nat)
    requires Twin(ts, ts', i) && GraphAt(ts, i).Ok? && Agree(ts, ts', GraphAt(ts, i).value.next)
    ensures GraphAt(ts', i) == GraphAt(ts, i)
  {
    hide WellShaped, StatementsAt;
    StatementsOk(ts, ts', i + 2);
  }

  lemma {:induction false} FileErrs(ts: seq<Token>, ts': seq<Token>, i: nat) returns (k: nat, file: FileText)
    requires Twin(ts, ts', i) && FileAt(ts, i).Err?
    ensures i <= k < |ts| && ts[k] == FileAt(ts, i).error.token
    ensures SpellableFile(file) && Begins(ts, i, k, SpellFile(file))
    ensures Agree(ts, ts', k + 1) ==> FileAt(ts', i) == FileAt(ts, i)
    decreases |ts| - i
  {
    hide WellShaped, GraphAt, SpellGraph, SpellableGraph, Begins, Plain;
    if ts[i].Kind() != Graph {
      k, file := i, [];
      assert Begins(ts, i, i, []) by { BeginsNothing(ts, i); }
    } else {
      KindIsSymbol(ts, i);
      if GraphAt(ts, i + 1).Err? {
        var g;
        k, g := GraphErrs(ts, ts', i);
        file := [g];
        BeginsMore(ts, i, k, SpellGraph(g), []);
      } else {
        k, file := FileErrsLater(ts, ts', i);
        if Agree(ts, ts', k + 1) {
          GraphOks(ts, ts', i + 1);
        }
      }
    }
  }

  lemma {:induction false} FileErrsLater(ts: seq<Token>, ts': seq<Token>, i: nat) returns (k: nat, file: FileText)
    requires Twin(ts, ts', i) && ts[i].symbol == GRAPH && i + 1 < |ts| && GraphAt(ts, i + 1).Ok?
    requires FileAt(ts, GraphAt(ts, i + 1).value.next).Err?
    ensures var next := GraphAt(ts, i + 1).value.next;
            && next <= k < |ts| && ts[k] == FileAt(ts, next).error.token
            && (Agree(ts, ts', k + 1) ==> FileAt(ts', next) == FileAt(ts, next))
    ensures SpellableFile(file) && Begins(ts, i, k, SpellFile(file))
    decreases |ts| - i, 0
  {
    hide WellShaped, GraphAt, SpellGraph, SpellableGraph, Begins, Plain, FileAt;
    var first := GraphAt(ts, i + 1).value;
    GraphSpells(ts, i + 1);
    var rest;
    k, rest := FileErrs(ts, if first.next < |ts'| then ts' else ts, first.next);
    file := [first.value] + rest;
    assert file[1..] == rest;
    BeginsAfter(ts, i, first.next, k, SpellGraph(first.value), SpellFile(rest));
  }

  lemma BeginsNothing(ts: seq<Token>, i: nat)
    requires i <= |ts|
    ensures Begins(ts, i, i, [])
  {
  }

  // ---------------------------------------------------------------------------------------------
  // Sources
  // ---------------------------------------------------------------------------------------------

  /** Tokens for symbols whose place does not matter. */
  function Placed(ss: seq<Symbol>): (ts: seq<Token>)
    ensures |ts| == |ss| && forall j :: 0 <= j < |ss| ==> ts[j].symbol == ss[j]
  {
    seq(|ss|, j requires 0 <= j < |ss| => Token(ss[j], 1, 1, 0))
  }

  ghost predicate AllDifferent(ts: seq<Token>) {
    forall i, j :: 0 <= i < j < |ts| ==> ts[i] != ts[j]
  }

  lemma LexedAreDifferent(src: string)
    requires Lex(src).Ok?
    ensures AllDifferent(Lex(src).value)
  {
    hide Lex, FaithfulFrom;
    LexExactlyFaithful(src, Lex(src).value);
    FaithfulAreDifferent(src, 0, Lex(src).value);
  }

  /** Each token of a faithful list starts after the one before it. */
  lemma {:induction false} FaithfulAreDifferent(src: string, i: nat, ts: seq<Token>)
    requires i <= |src| && FaithfulFrom(src, i, ts)
    ensures AllDifferent(ts) && forall j :: 0 <= j < |ts| ==> ts[j].index >= i
    decreases |ts|
  {
    hide TokenFits, Gap;
    if |ts| > 1 {
      FittingIsNotEmpty(src, ts[0]);
      FaithfulAreDifferent(src, ts[0].End(), ts[1..]);
      forall i, j | 0 <= i < j < |ts| ensures ts[i] != ts[j] {
        assert ts[j] == ts[1..][j - 1] && (i > 0 ==> ts[i] == ts[1..][i - 1]);
      }
      forall j | 0 <= j < |ts| ensures ts[j].index >= i {
        assert j > 0 ==> ts[j] == ts[1..][j - 1];
      }
    }
  }

  lemma FittingIsNotEmpty(src: string, t: Token)
    requires t.End() <= |src| && TokenFits(src, t)
    ensures t.symbol.lexeme != ""
  {
  }

  /** A text that goes on from the first `k + 1` tokens is read from a list that has them in common. */
  lemma TextGoesOn(ts: seq<Token>, k: nat, file: FileText) returns (ts': seq<Token>)
    requires k < |ts| && SpellableFile(file) && Plain(ts)[..k + 1] <= SpellFile(file) + [END]
    ensures Agree(ts, ts', k + 1) && Terminated(ts') && FileAt(ts', 0) == Ok(file)
  {
    hide SpellableFile, SpellFile, FileAt;
    var ss := SpellFile(file) + [END];
    ts' := ts[..k + 1] + Placed(ss[k + 1..]);
    forall j | 0 <= j < |ss| ensures ts'[j].symbol == ss[j] {
      if j <= k {
        assert Plain(ts)[..k + 1][j] == ts[j].symbol;
      }
    }
    assert ts'[|ts'| - 1].symbol == END;
    ReadsPlaced(ts', file);
  }

  /** Whatever follows the token blamed, it is blamed. */
  lemma BlameIsFinal(ts: seq<Token>, k: nat, ts': seq<Token>)
    requires Scanned(ts) && Terminated(ts) && Terminated(ts') && AllDifferent(ts) && FileAt(ts, 0).Err?
    requires k < |ts| && ts[k] == FileAt(ts, 0).error.token && Agree(ts, ts', k + 1)
    ensures FileAt(ts', 0) == FileAt(ts, 0)
  {
    hide Scanned, FileAt, SpellFile, SpellableFile;
    var k', _ := FileErrs(ts, ts', 0);
    assert k' == k;
  }

  lemma ScannedStarts(ts: seq<Token>)
    requires Scanned(ts)
    ensures Terminated(ts)
  {
  }

  lemma ReadsPlaced(ts: seq<Token>, file: FileText)
    requires SpellableFile(file) && |ts| == |SpellFile(file)| + 1 && ts[|ts| - 1].symbol == END
    requires forall j :: 0 <= j < |ts| ==> ts[j].symbol == (SpellFile(file) + [END])[j]
    ensures Terminated(ts) && FileAt(ts, 0) == Ok(file)
  {
    hide SpellableFile, SpellFile, FileAt;
    forall j | 0 <= j < |SpellFile(file)| ensures ts[0 + j].symbol == SpellFile(file)[j] {
      assert (SpellFile(file) + [END])[j] == SpellFile(file)[j];
    }
    FileIsRead(ts, 0, file);
  }

  /**
   A source that scans and does not parse is blamed on its first impossible token: up to it the tokens begin some text,
   and with it they begin none, the end marker counting as a token.
   */
  lemma ErrorIsFirstImpossibleToken(src: string) returns (k: nat, file: FileText)
    requires ReadSource(src).Err? && ReadSource(src).error.Unparsable?
    ensures Lex(src).Ok? && k < |Lex(src).value| && Lex(src).value[k] == ReadSource(src).error.parseError.token
    ensures SpellableFile(file) && Plain(Lex(src).value)[..k] <= SpellFile(file)
    ensures forall other :: SpellableFile(other) ==> !(Plain(Lex(src).value)[..k + 1] <= SpellFile(other) + [END])
  {
    hide Lex, SpellableFile, SpellFile, FileAt, Scanned;
    var ts := Lex(src).value;
    LexedIsScanned(src, ts);
    ScannedStarts(ts);
    LexedAreDifferent(src);
    k, file := FileErrs(ts, ts, 0);
    forall j | 0 <= j < k ensures Plain(ts)[..k][j] == SpellFile(file)[j] {
      assert ts[0 + j].symbol == SpellFile(file)[j];
    }
    forall other | SpellableFile(other) ensures !(Plain(ts)[..k + 1] <= SpellFile(other) + [END]) {
      if Plain(ts)[..k + 1] <= SpellFile(other) + [END] {
        var ts' := TextGoesOn(ts, k, other);
        BlameIsFinal(ts, k, ts');
        assert false;
      }
    }
  }
}
