# Verified model of the coordination layer and of Graph Forge

This project models, in Dafny 4.11, the stateful cores of the repository and proves what they promise.
`dafny verify dfyconfig.toml` verifies everything.

The models keep the form of the code. What the code does by updating fields is a `class` whose methods update
the same fields; each method is proved to take the step of a function of the old state, and the theorems are
about those functions and about all runs of them. Loops of the source are loops, with invariants. What a step comes to
in costs, intensities, times and texts is stated beside, without its functions (lemmas named `...InNumbers`, and those
of `Auction`, `BlackboardReads`, `CompiledValues` and `LexerLaws`).

- **Graph Forge** (`Tokens`, `LexerSpec`, `Lexer`, `LexerLaws`, `Syntax`, `ParserSpec`, `Parser`, `ParserProofs`,
  `ParseErrors`, `RoundTrip`, `AttributeCommas`, `Compiler`, `CompiledValues`): the scanner returns a token list
  exactly when that list is faithful to the source; the parser accepts exactly the token lists that spell a concrete
  text, and blames any other on its first impossible token; a printer, which the repository does not have, is undone
  by lexing and parsing, on exactly the trees that parsing can return; compilation succeeds exactly when names are
  unique and edge ends declared, and then builds a graph model with the declared outgoing edges and the spelled values.
- **Contract-Net** (`ContractNetSpec`, `ContractNet`, `OpenCalls`, `ContractNetProofs`, `Auction`): busy counts are
  the calls in progress, calls only move forward, awards pick a unique minimum whatever the map order, the event
  stream alone rebuilds the public state, and costs, reliabilities, preferences and biases weigh as promised.
- **Blackboard** (`BlackboardSpec`, `Blackboard`, `BlackboardProofs`, `BlackboardHistory`, `BlackboardReads`): lazy
  eviction cannot be told from eager expiry, batches are atomic, what was written is read back while it lives, the
  history is a replayable suffix, watchers miss nothing.
- **Stigmergy and its watcher** (`StigmergySpec`, `StigmergyField`, `StigmergyProofs`, `StigmergyNumbers`,
  `WatcherSpec`, `Watcher`, `WatcherProofs`): totals kept on the side are the sums, and the joint system of field,
  watcher and coordinator loses no update and keeps open calls fresh.
- **Supporting cores** (`EventStore`, `ChildOutput`, `LogRotation`, `Supervisor`, `Consensus`): bounded indexes,
  line framing and paging, rotation, restart pacing, and votes.
- `Outcomes` holds options and results, `JsMap` the insertion-ordered map of JavaScript, `RealFacts` the few facts
  about products and quotients that several proofs use.

## Where the code does not do what one would expect

Each of these is proved, with the exact condition under which the expected property does hold where there is one.
The lemmas are named.

- `graph-forge/README.md:15` shows attributes without a comma between them; `graph-forge/src/parser.ts:185-193`
  ends the block after an attribute that no comma follows. The model follows the parser: in a source that parses,
  the key before each colon follows a brace or a comma (`KeysFollowBraceOrComma`), so a value followed by a key
  is rejected (`MissingCommaIsRejected`), and the example with it (`CommalessExampleIsRejected`).
- An attribute named `__proto__` is never stored and may be repeated (`graph-forge/src/compiler.ts:136-147`);
  all others are stored (`TableHasEveryAttribute`).
- An award reports the winning score plus one busy penalty times the pressure, because the busy count rises
  before the decision is built (`src/coord/contractNet.ts:559-560`, `AwardPicksTheBest`).
- `set` raises the version before it copies the value (`src/coord/blackboard.ts:129-132`), so a value that cannot
  be copied leaves a gap (`FailedSetLeavesGap`). The retained history has no gap exactly when no more events are
  retained than have gone out since the last such failure (`HistoryIsContiguousIff`, `GapLeavesHistoryIff`); all events
  ever emitted have none exactly when it never happened (`EmittedIsContiguousIff`).
- `set` reads the clock again after evicting (`src/coord/blackboard.ts:122-123`). Eviction then still cannot be told
  from eager expiry, over a whole run, exactly when no entry expires between the two readings of a `set` that gets to
  write (`TwoReadingsAreEagerIff`, `SecondReadingIsHarmlessIff`, with an input in `TwoReadingsShow`).
- Two pheromones can share a key when node identifiers contain colons (`src/coord/stigmergy.ts:527-529`), and with a
  finite maximum a node can lose its total while entries remain (`src/coord/stigmergy.ts:510-521`). Totals are the
  sums throughout a run exactly when every mark lands on an entry of its own node and is not cut at the maximum
  (`AnyTotalsAgreeIffAllFit`). When keys cannot clash it is enough to look between operations
  (`TotalsAgreeIffAllFit`), and without a maximum they always agree (`TotalsAreSums`).
- Evaporating often enough stops evaporation: a negligible loss is dropped and the entry counts as up to date
  (`src/coord/stigmergy.ts:360-363`). Readings leave everything as it was exactly when every loss between two of them
  is negligible (`FrequentEvaporationStalls`, `LevelsStandStillIff`, with a pheromone read every millisecond in
  `EveryMillisecondStalls`).
- After its first refresh, a watcher of a field with a finite maximum never refreshes anything again
  (`src/coord/contractNetWatchers.ts:242-248`, `FixedMaximumNeverFlushes`).
- Reading a child's messages cuts a line that is still arriving (`src/childRuntime.ts:421-423`). A read is harmless
  exactly when no unfinished line is buffered (`ReadIsHarmlessIff`); what is recorded under any reads is
  `ReadsEndLines`.
- At the instant the oldest restart is exactly a minute old the quota does not hold back further starts
  (`src/children/supervisionStrategy.ts:318-344`). The quota holds over a run exactly when no attempt starts then
  (`QuotaHoldsIff`).
- A quota below one is truncated to zero and then compared with a restart that is not there: while none is on record,
  even the backoff is skipped (`src/children/supervisionStrategy.ts:156-159`, `194-203`, `332-344`), and only then
  (`NoStartTooEarly`).
- With fractional weights a value above half can stay unsatisfied, and the empty value never satisfies
  (`src/coord/consensus.ts:246-248`). A majority is satisfied exactly when a non-empty value reaches the threshold
  (`MajorityIffThresholdReached`).

## Model

| member | source | states |
|---|---|---|
| `LexerSpec.LexExactlyFaithful` | graph-forge/src/lexer.ts:61-256 | A token list is what scanning a source gives if and only if it is faithful to it: tokens in order and disjoint, lexemes equal to their slices, gaps of whitespace and line comments only, lines and columns those of the source prefix, longest match, end marker last. No other list is |
| `LexerSpec.LexIsFaithful` | graph-forge/src/lexer.ts:61-139 | Every token list scanned from any position is faithful from there on |
| `LexerSpec.FaithfulIsLexed` | graph-forge/src/lexer.ts:61-139 | Any faithful list is the one scanned, so faithfulness determines the tokens |
| `LexerSpec.ErrorMeansNoTokenList` | graph-forge/src/lexer.ts:78-139 | Scanning throws if and only if the source has no faithful token list |
| `LexerSpec.StringMeansDecoded` | graph-forge/src/lexer.ts:168-206 | A quoted slice is scanned as one string token meaning a text if and only if it ends with a quote and what is between the quotes decodes to that text, so that quote is the first unescaped one |
| `LexerSpec.NumeralScans` | graph-forge/src/lexer.ts:158-166 | A digit string with at most one fraction is scanned as one number when nothing continues it |
| `GraphForgeLexer.Lexer.ScanTokens` | graph-forge/src/lexer.ts:61-76 | The scanning loop returns the specified result for every source, tokens or error with its position, and always terminates |
| `GraphForgeLexer.Lexer.ScanToken` | graph-forge/src/lexer.ts:78-139 | One step of the scanner: at most one token is added, the cursor moves on, and line and column are those of the new position |
| `GraphForgeLexer.Lexer.Identifier` | graph-forge/src/lexer.ts:141-156 | The whole word is taken and is the keyword, boolean or identifier it spells |
| `GraphForgeLexer.Lexer.Number` | graph-forge/src/lexer.ts:158-166 | The longest numeral is taken; a point not followed by a digit is left |
| `GraphForgeLexer.Lexer.String` | graph-forge/src/lexer.ts:168-206 | The literal up to its closing quote with its decoded value, or the error and the place the source reports |
| `LexerLaws.WordIsOneToken` | graph-forge/src/lexer.ts:141-156 | A source of letters, underscores and digits, no digit first, that is no reserved word is scanned as one identifier |
| `LexerLaws.DigitsAreOneToken` | graph-forge/src/lexer.ts:158-166 | A source of digits is scanned as one number |
| `LexerLaws.NothingToScan` | graph-forge/src/lexer.ts:78-139 | Blanks, tabs, carriage returns and newlines, and a line comment, leave only the end marker |
| `LexerLaws.ForeignCharacterIsRejected` | graph-forge/src/lexer.ts:78-139 | A first character outside the alphabet is the error, at line 1 and column 1 |
| `LexerLaws.PositionInNumbers` | graph-forge/src/lexer.ts:208-256 | The line is one more than the newlines before a token, the column one more than the characters since the last newline |
| `GraphForgeParser.Parser.ParseFile` | graph-forge/src/parser.ts:81-93 | The cursor parser accepts and rejects exactly as the grammar function does, with the same error and the trees of the texts read |
| `GraphForgeParser.Parser.GraphDeclaration` | graph-forge/src/parser.ts:95-128 | Statements of the four kinds are collected in their order of appearance |
| `GraphForgeParser.Parser.AttributeBlockOptional` | graph-forge/src/parser.ts:171-195 | Attributes are separated by commas, a trailing comma is tolerated, no block is no attributes |
| `GraphForgeParser.Parser.AnalysisStatement` | graph-forge/src/parser.ts:159-169 | Arguments run to a semicolon, a closing brace or the end; the title is the raw lexeme unless it is an identifier |
| `ParserProofs.FileSpells` | graph-forge/src/parser.ts:81-93 | What the parser accepts is spelled, token for token, by the concrete text it read |
| `ParserProofs.FileIsRead` | graph-forge/src/parser.ts:81-212 | The spelling of every spellable concrete text is read back as that text |
| `ParserProofs.ParseExactlySpelled` | graph-forge/src/parser.ts:81-212 | On scanned tokens, parsing gives a text if and only if the tokens are the spelling of that text |
| `ParseErrors.ErrorIsFirstImpossibleToken` | graph-forge/src/parser.ts:81-212 | A parse error is reported at the first impossible token: the tokens before it begin some text, and with it they begin none, the end marker counting as a token |
| `AttributeCommas.KeysFollowBraceOrComma` | graph-forge/src/parser.ts:180-193 | In every source that parses, the key before each colon follows an opening brace or a comma |
| `AttributeCommas.MissingCommaIsRejected` | graph-forge/src/parser.ts:180-193 | Any source, however laid out, in which a value stands right before the key of an attribute is rejected |
| `AttributeCommas.CommalessExampleIsRejected` | graph-forge/README.md:10-23 | The whole example of the documentation, with its two comma-less nodes, does not parse in any layout |
| `RoundTrip.Parse` | graph-forge/src/parser.ts:62-74 | Lexing then parsing, as a method, returns the specified tree or the first error |
| `RoundTrip.LayoutIsLexed` | graph-forge/src/lexer.ts:61-256 | Well-shaped tokens laid out with any whitespace and comments that keep them apart are scanned back |
| `RoundTrip.SpelledSourceReads` | graph-forge/src/parser.ts:62-74 | Every spellable text, however laid out, lexes and parses to itself and to its tree |
| `RoundTrip.ReadSourceIsSpelled` | graph-forge/src/parser.ts:62-74 | Every source that parses has exactly the tokens that spell what it parsed as |
| `RoundTrip.PrintedFileParses` | graph-forge/src/parser.ts:62-74 | Lexing and parsing the canonical printing of any well-formed tree returns that tree, string escapes included |
| `RoundTrip.ParsedIsWellFormed` | graph-forge/src/parser.ts:81-212 | Every tree the parser returns is well formed |
| `RoundTrip.ParsableExactlyWellFormed` | graph-forge/src/parser.ts:62-74 | The well-formed trees are exactly those some source parses to |
| `RoundTrip.ReformattingKeepsTree` | graph-forge/src/parser.ts:62-74 | Printing a parsed source again and parsing that gives the same tree |
| `GraphForgeCompiler.FoldAttributes` | graph-forge/src/compiler.ts:136-147 | A block folds if and only if no key other than `__proto__` is repeated; the record then holds each key with its value as parsed, and otherwise the error names the first repeated key |
| `GraphForgeCompiler.ProtoIsNotChecked` | graph-forge/src/compiler.ts:136-147 | A concrete block with `__proto__` twice is accepted and both are lost: the assignment does not create an own property |
| `GraphForgeCompiler.TableHasEveryAttribute` | graph-forge/src/compiler.ts:136-147 | The record holds exactly the attributes whose key is not `__proto__`, each with its value as parsed (digits, text, name or truth value), one per attribute, and is determined by the block |
| `GraphForgeCompiler.BuildNodeMap` | graph-forge/src/compiler.ts:70-82 | Succeeds exactly when node names are distinct; the map has exactly the declared nodes |
| `GraphForgeCompiler.ToEdgeData` | graph-forge/src/compiler.ts:91-107 | Succeeds exactly when both ends are declared and the attributes fold; names the first missing end |
| `GraphForgeCompiler.BuildDirectiveMap` | graph-forge/src/compiler.ts:109-120 | Succeeds exactly when directive names are distinct; each keeps its value |
| `GraphForgeCompiler.CompileGraphNode` | graph-forge/src/compiler.ts:60-68 | Compilation succeeds if and only if node, directive and per-block attribute names are unique and edge ends declared; the graph model built then has the declared nodes, edges and directives in order, and an error is the first failure of the first check that fails |
| `GraphForgeCompiler.CompileAst` | graph-forge/src/compiler.ts:47-58 | The entry graph, or the first one, is compiled to its model; none or no such graph is an error, and any other error is that of the graph chosen |
| `GraphForgeCompiler.CompileSource` | graph-forge/src/compiler.ts:42-45 | From source text to a graph model whose outgoing edges, for every identifier, are the edges the parsed graph declares from it, in order; succeeds if and only if the chosen graph is compilable, else reports its first failure |
| `CompiledValues.SourceValuesAreStored` | graph-forge/src/compiler.ts:136-164 | Whatever the source, each statement of a compiled graph is stored with the values its own tokens spell: `true` and `false` as truth values, what is quoted decoded, numerals by their digits, any other word as text |
| `CompiledValues.TrueIsStoredTrue` | graph-forge/src/compiler.ts:149-164 | A node with an attribute given as `true`, in any layout, compiles to a node whose one attribute is true |
| `GraphForgeCompiler.BlameIsUnique` | graph-forge/src/compiler.ts:60-120 | A graph that does not compile has exactly one error that can be reported, a compilable one has none |
| `GraphForgeCompiler.FilteredEdgesCopy` | graph-forge/src/model.ts:31-48 | Filtering the compiled edges by source gives the compiled form of the declared edges with that source |
| `GraphForgeCompiler.GraphModel.constructor` | graph-forge/src/model.ts:20-40 | The adjacency index built by the loop gives, for every identifier, the edges with that source, in order, and the node index the declared nodes |
| `GraphForgeCompiler.GraphModel.GetOutgoing` | graph-forge/src/model.ts:46-48 | For every identifier, undeclared ones included, the answer read from the index is the edge list filtered by source |
| `GraphForgeCompiler.GraphModel.ListNodes` | graph-forge/src/model.ts:50-52 | The declared nodes in declaration order when identifiers are distinct; in any case one declared node for each identifier |
| `GraphForgeCompiler.EdgesFromInOrder` | graph-forge/src/model.ts:31-48 | The filtered list keeps order and multiplicity: its k-th edge is the k-th edge with that source |
| `ContractNet.ContractNetCoordinator.RegisterAgent` | src/coord/contractNet.ts:365-387 | The agent is stored with merged and normalised profile, keeps its busy count, and the event is emitted |
| `ContractNet.ContractNetCoordinator.UnregisterAgent` | src/coord/contractNet.ts:390-402 | The agent goes, its busy count stays, and the event reports it; unknown agents change nothing |
| `ContractNet.ContractNetCoordinator.Announce` | src/coord/contractNet.ts:405-458 | A blank task is refused; otherwise heuristic bids are offered before the announcement is emitted |
| `ContractNet.ContractNetCoordinator.PlaceBid` | src/coord/contractNet.ts:467-481 | Unknown call, closed call, unknown agent and negative cost are refused; otherwise a manual bid replaces what stood |
| `ContractNet.ContractNetCoordinator.UpdateCallPheromoneBounds` | src/coord/contractNet.ts:484-531 | Bounds are set on open calls only and heuristic bids refreshed when asked |
| `ContractNet.ContractNetCoordinator.Award` | src/coord/contractNet.ts:534-569 | Each case of the award: standing awards are repeated, conflicts and missing bids refused, else the chosen bid wins |
| `ContractNet.ContractNetCoordinator.Complete` | src/coord/contractNet.ts:572-590 | Completing needs an award, is idempotent, and releases one assignment |
| `ContractNet.ContractNetCoordinator.SelectBestBid` | src/coord/contractNet.ts:687-713 | The running winner over the bid map is the specified best bid |
| `ContractNet.ContractNetCoordinator.ListOpenCalls` | src/coord/contractNet.ts:351-356 | The open calls, each once, by announcement time and then identifier |
| `OpenCalls.ListingIsTheSorting` | src/coord/contractNet.ts:351-356 | A list is the one given if and only if it lists exactly the open calls in that order |
| `OpenCalls.SortedIsUnique` | src/coord/contractNet.ts:354-356 | Two sorted lists of the same calls are equal, so the result does not depend on the map order or the sort |
| `OpenCalls.ListedByAnnouncement` | src/coord/contractNet.ts:351-356 | Calls announced earlier come first, those announced at one time by identifier; every open call and no other is listed |
| `ContractNet.ContractNetCoordinator.BreakTie` | src/coord/contractNet.ts:726-742 | At equal cost, decides as the lexicographic order does |
| `ContractNet.ContractNetCoordinator.RefreshHeuristicBids` | src/coord/contractNet.ts:775-799 | Exactly the refreshable agents get a new heuristic bid; the loop sees each agent once |
| `ContractNetProofs.AssignmentsAreConserved` | src/coord/contractNet.ts:365-590 | From any consistent state, after any run an agent's busy count is the number of calls awarded to it and not completed |
| `ContractNetProofs.ClampNeverBites` | src/coord/contractNet.ts:749-752 | Completing an awarded call always finds a positive count, so the clamp at zero has no effect |
| `ContractNetProofs.RunProgresses` | src/coord/contractNet.ts:467-590 | Over any run no call is lost, status never moves back, awards and the bids beside them are frozen, and a manual bid never turns heuristic |
| `ContractNetProofs.BestBeatsAll` | src/coord/contractNet.ts:687-742 | The winner beats every other bid in (effective cost, busy count, submission time, agent identifier) |
| `ContractNetProofs.BestIgnoresOrder` | src/coord/contractNet.ts:687-713 | The winner is the same for every iteration order of the bid map |
| `ContractNetProofs.AwardPicksTheBest` | src/coord/contractNet.ts:534-569 | Without a preferred agent the award goes to the unique minimum and reports its score plus one busy penalty times the pressure |
| `ContractNetProofs.AwardIsIdempotent` | src/coord/contractNet.ts:534-569 | Awarding again changes nothing: it repeats the decision, or refuses when another agent is asked for |
| `Auction.PlainScoreIsCost` | src/coord/contractNet.ts:715-724 | An idle agent, not preferred and without bias, is scored at the cost of its bid |
| `Auction.ScoreMoves` | src/coord/contractNet.ts:715-724 | The score rises with the cost, and by penalty times pressure per assignment; joining the preferred agents lowers it by the bonus, a bias by itself; other agents are not touched |
| `Auction.LowestScoreWins` | src/coord/contractNet.ts:534-569 | Nobody scores below the winner; equal scores go to the less busy, then the earlier bid, then the smaller identifier |
| `Auction.LowestCostWins` | src/coord/contractNet.ts:534-569 | With nobody busy, preferred or favoured the winner has the lowest cost |
| `Auction.PreferredBeatsItsEqual` | src/coord/contractNet.ts:719-723 | Of two bids alike in cost, bias and assignments, one preferred and one not, the other never wins when the bonus is positive |
| `Auction.CheaperBeatsItsEqual` | src/coord/contractNet.ts:715-724 | Of two bids alike but for the cost the dearer never wins |
| `Auction.PreferredWinnerStays` | src/coord/contractNet.ts:687-724 | A winner still wins once it is preferred, or once the bias towards it has grown |
| `Auction.AwardInNumbers` | src/coord/contractNet.ts:534-569 | The whole effect of an award: one call with the winning bid and the time, one more assignment for one agent, one event, and a decision with the cost of the bid; a preferred agent wins exactly if it has bid |
| `Auction.PressureInNumbers` | src/coord/contractNet.ts:808-825 | 1 without bounds or with the ceiling not above the minimum; 1 plus the share of the span the ceiling covers, at most all; else 1 plus log1p |
| `Auction.AnnounceInNumbers` | src/coord/contractNet.ts:405-458 | With automatic bids exactly the registered agents have a bid, at base cost over reliability; without, nobody; the call is as announced and nothing else changes |
| `Auction.ReliableOffersNoMore` | src/coord/contractNet.ts:947-951 | At one base cost the more reliable agent offers no more, and one of reliability 1 its base cost |
| `Auction.BoundsUpdateOffers` | src/coord/contractNet.ts:484-531 | Exactly the agents with a heuristic bid, and those without a bid if newcomers are let in, stand with a new offer under the new bounds; all other bids stay |
| `Auction.HeuristicsInNumbers` | src/coord/contractNet.ts:914-945 | Weights are as announced, the penalty defaults to that of the coordinator and the bonus to 1, negative ones count as 0 |
| `Auction.RegisterInNumbers` | src/coord/contractNet.ts:365-387 | What is given counts, costs not positive as 100, reliabilities not positive as a half and else within 0.1 and 1; what is left out stays, or starts as 100 and 1 |
| `Auction.TaskMustShow` | src/coord/contractNet.ts:405-409 | A task of blanks is refused, one with something to see is announced |
| `Auction.BidInNumbers` | src/coord/contractNet.ts:467-481 | The refusals in their order, else a manual bid at the given cost and the time; no other bid or call changes |
| `Auction.CompletionInNumbers` | src/coord/contractNet.ts:572-590 | An awarded call is completed and its agent has one assignment less; otherwise nothing changes |
| `ContractNetProofs.PressureRange` | src/coord/contractNet.ts:808-825 | The pressure is at least 1, and at most 2 under a finite span |
| `ContractNetProofs.PressureGrows` | src/coord/contractNet.ts:808-825 | A higher ceiling never lowers the pressure |
| `ContractNetProofs.EventsRebuildState` | src/coord/contractNet.ts:365-590 | From the empty coordinator, after any admissible run, folding nothing but the emitted events rebuilds the agents, every call's status, bids, bounds, winner and refresh flags, and every busy count |
| `ContractNetProofs.ReachedConservesAssignments` | src/coord/contractNet.ts:365-590 | In every state reached from the empty coordinator an agent's busy count is the number of calls awarded to it and not completed |
| `ContractNetProofs.ReachedProgresses` | src/coord/contractNet.ts:467-590 | From any reached state to any later one, calls, awards and bids only move forward |
| `ContractNetProofs.StepMatches` | src/coord/contractNet.ts:365-590 | One operation keeps the folded replica in step with the coordinator |
| `ContractNetProofs.RefreshOffers` | src/coord/contractNet.ts:775-799 | After a refresh an agent has a new heuristic bid if it was refreshable, and its old bid otherwise |
| `ContractNetProofs.BoundsUpdateTakesEffect` | src/coord/contractNet.ts:484-531 | The call carries the new bounds, the refreshed agents are those with a fresh bid under the new pressure, all other bids stay |
| `ContractNetProofs.SnapshotsAreCurrent` | src/coord/contractNet.ts:606-639 | The call shown by the last event of an operation is the call as it then stands |
| `Blackboard.BlackboardStore.constructor` | src/coord/blackboard.ts:115-118 | An empty store with a history limit of at least one |
| `Blackboard.BlackboardStore.Set` | src/coord/blackboard.ts:121-150 | Evicts at one reading of the clock, then at another stores the entry with a new version, keeping the creation time of the predecessor still there; a value that cannot be copied has already used up a version |
| `Blackboard.BlackboardStore.BatchSet` | src/coord/blackboard.ts:159-236 | Evicts, then writes all entries or restores them; events go out after all writes |
| `Blackboard.BlackboardStore.Get` | src/coord/blackboard.ts:239-246 | Evicts, then reads |
| `Blackboard.BlackboardStore.Delete` | src/coord/blackboard.ts:253-271 | Evicts, then removes a live entry with a new version |
| `Blackboard.BlackboardStore.Query` | src/coord/blackboard.ts:274-289 | Evicts, then selects by key and tags, most recently updated first |
| `Blackboard.BlackboardStore.EvictExpired` | src/coord/blackboard.ts:296-317 | Removes exactly the expired entries, in map order, one version and one event each |
| `Blackboard.BlackboardStore.GetEventsSince` | src/coord/blackboard.ts:325-331 | Evicts, then returns the retained events above a version, cut to the limit |
| `Blackboard.BlackboardStore.Watch` | src/coord/blackboard.ts:337-356 | Replays what is retained above the start, then delivers |
| `Blackboard.BlackboardStore.RecordEvent` | src/coord/blackboard.ts:363-369 | Appends, shifts when over the limit, and delivers to every watcher |
| `BlackboardProofs.LazyIsEager` | src/coord/blackboard.ts:121-317 | For every operation sequence with one reading each of a nondecreasing clock, all answers (values, tags, times, versions, order) are those of an ideal store that drops each entry the millisecond it expires |
| `BlackboardProofs.NewStoreAgrees` | src/coord/blackboard.ts:115-118 | The two stores agree at the start, whatever the limit and time |
| `BlackboardProofs.StepAgrees` | src/coord/blackboard.ts:121-317 | One operation gives the same answer on both stores and keeps them in agreement |
| `BlackboardProofs.SecondReadingIsHarmlessIff` | src/coord/blackboard.ts:121-150 | A set, which reads the clock again after evicting, answers as one that reads only the later time if and only if no entry expires between the readings; apart from the version, if and only if its own entry does not, or was created at the later time |
| `BlackboardProofs.TwoReadingsAreEagerIff` | src/coord/blackboard.ts:121-317 | For every run in which each set reads the clock twice, the answers are those of the ideal store at the last readings if and only if no entry expires between the two readings of a set that gets to write |
| `BlackboardProofs.TwoReadingsShow` | src/coord/blackboard.ts:121-150 | An entry that expires between the two readings passes its creation time on |
| `BlackboardProofs.StageFailsAtFirst` | src/coord/blackboard.ts:159-236 | A batch fails at its first value that cannot be copied |
| `BlackboardProofs.BatchIsAtomic` | src/coord/blackboard.ts:159-236 | On failure only eviction has happened; on success entries, versions, history and watchers are those of sequential sets at the same reading |
| `BlackboardReads.SetReadsBack` | src/coord/blackboard.ts:121-246 | What was set is read after any run that does not touch its key if and only if it has no lifetime or fewer than max(1, floor ttl) milliseconds have passed; with the text and tags given, the time of the write, and the creation time of the live predecessor or else that time |
| `BlackboardReads.BatchReadsBack` | src/coord/blackboard.ts:159-246 | The same for the last write of a batch under a key |
| `BlackboardReads.DeleteTakesAway` | src/coord/blackboard.ts:253-271 | A delete succeeds exactly on a live entry, and nothing is read under the key afterwards |
| `BlackboardReads.QueryShowsTheLive` | src/coord/blackboard.ts:274-289 | A query shows each live entry whose key is among the keys given and that has all tags given, as often as it is stored, and nothing else |
| `BlackboardReads.EventsSinceTells` | src/coord/blackboard.ts:325-331 | Exactly the retained events above the version, in order, and with a limit the first of them |
| `BlackboardReads.StepAddsProperEvents` | src/coord/blackboard.ts:121-369 | Each event bears the time of its operation; expiries are of entries whose time is up, deletes of the key asked for, sets of keys written |
| `BlackboardHistory.RunAdvances` | src/coord/blackboard.ts:121-369 | Over any run the history is a suffix of all events, versions strictly increase, replaying all events gives the entries, and each watcher has received every later event above its start once and in order |
| `BlackboardHistory.HistoryIsContiguousIff` | src/coord/blackboard.ts:121-150 | The retained history runs without a gap up to the current version if and only if no more events are retained than have gone out since the last failed set of the run |
| `BlackboardHistory.EmittedIsContiguousIff` | src/coord/blackboard.ts:121-150 | All versions ever emitted are 1, 2, ... up to the current one if and only if no set of the run failed to copy |
| `BlackboardHistory.GapLeavesHistoryIff` | src/coord/blackboard.ts:363-369 | Without clearing, a gap is out of the history once as many events as it holds have gone out since the last failed set, and shows until then, unless nothing had gone out before that set |
| `BlackboardHistory.FailedSetLeavesGap` | src/coord/blackboard.ts:129-132 | A good set, a failed one and a good one leave a history with versions 1 and 3, for every limit above one; already after the failed one the history stops short of the current version |
| `BlackboardHistory.RetentionIsFull` | src/coord/blackboard.ts:363-369 | Without clearing, exactly the last `limit` events are retained, or all while there are fewer |
| `BlackboardHistory.CatchingUpWorks` | src/coord/blackboard.ts:325-331 | Replaying the events since a retained version over the entries of that version gives the current entries |
| `BlackboardHistory.WatcherMissesNothing` | src/coord/blackboard.ts:337-356 | A watcher gets every event above its start still retained at subscription, then every later one, each once, in version order |
| `BlackboardHistory.QueryIsStableSort` | src/coord/blackboard.ts:274-289 | Query results are a permutation of the selected entries, sorted by update time, stable among equals |
| `Stigmergy.CreateField` | src/coord/stigmergy.ts:201-226 | Construction succeeds exactly on sensible limits and half-life, and gives a blank field |
| `Stigmergy.StigmergyField.Mark` | src/coord/stigmergy.ts:229-251 | A bad intensity or blank type changes nothing; otherwise entry and total move and the change is emitted |
| `Stigmergy.StigmergyField.BatchMark` | src/coord/stigmergy.ts:258-329 | All marks or none; on failure the failing index and the old maps |
| `Stigmergy.StigmergyField.Evaporate` | src/coord/stigmergy.ts:337-383 | Every entry decays in turn, each change emitted with the totals of that moment |
| `Stigmergy.StigmergyField.EvaporateEntry` | src/coord/stigmergy.ts:348-381 | One entry: no time passed, negligible loss, removal or decay |
| `Stigmergy.StigmergyField.AdjustTotal` | src/coord/stigmergy.ts:510-521 | The total moves by the change, is cut to the maximum, and is dropped when used up |
| `Stigmergy.StigmergyField.ApplyEntryMutation` | src/coord/stigmergy.ts:531-562 | The entry and its node's total after one mark |
| `Stigmergy.StigmergyField.ResolveNormalisationCeiling` | src/coord/stigmergy.ts:583-592 | The running maximum is the specified ceiling |
| `Stigmergy.StigmergyField.HeatmapTotals` | src/coord/stigmergy.ts:432-452 | One cell per node with entries: their sum, their latest update, and the entries in order |
| `StigmergyProofs.MarkAddsUp` | src/coord/stigmergy.ts:229-251 | An accepted mark is added to its own entry, unless too little comes of it to keep; its node's total gains what the entry gains; nothing else changes and listeners are told |
| `StigmergyNumbers.MarkInNumbers` | src/coord/stigmergy.ts:229-251 | Under any maximum: the level reached is the sum, cut at the maximum and dropped up to a millionth; the total moves as the entry does; one change tells; refused marks change nothing |
| `StigmergyNumbers.BatchAnswersEachMark` | src/coord/stigmergy.ts:258-329 | A batch answers each mark as a single one would be answered, with the total at that point |
| `StigmergyProofs.MarkKeepsAgreementIff` | src/coord/stigmergy.ts:510-562 | A mark keeps all totals equal to the sums if and only if the entry it lands on is the node's own and the total is not cut at the maximum |
| `StigmergyProofs.ClashBreaksAgreement` | src/coord/stigmergy.ts:527-562 | Landing on another node's entry always breaks the agreement |
| `StigmergyProofs.KeysCanClash` | src/coord/stigmergy.ts:527-529 | Node `a` with type `:b` and node `a:` with type `b` share a key; marking one and then the other on a blank field leaves totals that are not the sums, whatever the amounts |
| `StigmergyProofs.SafeKeysTellNodes` | src/coord/stigmergy.ts:527-529 | Keys tell nodes and types apart when the separator is the first `::` of the key |
| `StigmergyProofs.NoColonIsSafe` | src/coord/stigmergy.ts:527-529 | Identifiers without a colon are of that kind |
| `StigmergyProofs.TotalsAreSums` | src/coord/stigmergy.ts:229-383 | Unbounded field, any mix of marks, batches (failed ones too) and evaporations: each total is the sum of its node's entries and exists exactly while an entry does |
| `StigmergyProofs.TotalsAreBounded` | src/coord/stigmergy.ts:510-521 | Any limits: a kept total is positive, at most the maximum, and at most the sum |
| `StigmergyProofs.StepAgreesIff` | src/coord/stigmergy.ts:229-383 | Under any maximum one operation keeps agreement if and only if its marks fit; evaporation always does |
| `StigmergyProofs.TotalsAgreeIffAllFit` | src/coord/stigmergy.ts:229-383 | Any maximum, any run with batches and evaporations, safe identifiers: totals are the sums after every operation if and only if no mark is cut at the maximum when placed |
| `StigmergyProofs.AnyTotalsAgreeIffAllFit` | src/coord/stigmergy.ts:229-383 | Any maximum and any identifiers: totals are the sums after every operation and every mark of a successful batch if and only if each mark lands on its own node's entry and is not cut |
| `StigmergyProofs.FittingTotalsAreSums` | src/coord/stigmergy.ts:229-383 | While every mark has fitted, a node has a total exactly while it has an entry, and it is their sum |
| `StigmergyProofs.CutTotalCanVanish` | src/coord/stigmergy.ts:510-521 | Under a maximum of ten, two entries of ten halved once leave entries of five and no total |
| `StigmergyProofs.CutTotal` | src/coord/stigmergy.ts:531-562 | The two marks that lead to that state |
| `StigmergyProofs.StageFailsAtFirst` | src/coord/stigmergy.ts:258-303 | A batch stops at its first bad mark |
| `StigmergyProofs.BatchIsAtomic` | src/coord/stigmergy.ts:258-329 | A failed batch changes neither entries, totals nor events; a successful one has the entries, totals and events of single marks, every listener seeing the final totals |
| `StigmergyProofs.EvaporatedLevels` | src/coord/stigmergy.ts:337-383 | After an evaporation each entry stands at its decayed level, or where it was when the loss is negligible, and is gone at nothing |
| `StigmergyNumbers.EvaporationInNumbers` | src/coord/stigmergy.ts:337-383 | After an evaporation an entry has its intensity times the decay for the time since it was last touched, nothing up to a millionth, unless the loss is at most a millionth |
| `StigmergyNumbers.TwoEvaporationsAreOne` | src/coord/stigmergy.ts:337-383 | For powers of a half, evaporating twice comes to evaporating once at the later time, as long as the losses are large enough to be taken and something is left |
| `StigmergyNumbers.HalfLifeInNumbers` | src/coord/stigmergy.ts:337-347 | The half-life asked for counts, else that of the field; without a positive one the evaporation is refused |
| `StigmergyProofs.QuietIff` | src/coord/stigmergy.ts:337-383 | An evaporation emits nothing if and only if every loss is negligible; the last emission shows the totals it leaves |
| `StigmergyProofs.FrequentEvaporationStalls` | src/coord/stigmergy.ts:358-363 | Nothing is emitted over a series of readings if and only if at each one every loss since the last is negligible; then intensities, totals and order are as before, and only update times have moved |
| `StigmergyProofs.LevelsStandStillIff` | src/coord/stigmergy.ts:358-363 | Under a decay that never adds, every intensity is what it was after a series of readings if and only if at each one every loss since the last is negligible |
| `StigmergyProofs.EveryMillisecondStalls` | src/coord/stigmergy.ts:358-363 | A pheromone with a half-life of a thousand seconds is halved by one reading after that time, and is untouched however long it is read every millisecond |
| `StigmergyProofs.CeilingIsHighest` | src/coord/stigmergy.ts:583-592 | Unbounded: the ceiling is the highest total, or one above the minimum when none exceeds it |
| `StigmergyProofs.NormaliseScales` | src/coord/stigmergy.ts:568-581 | Shown levels lie in [0, 1], keep the order of intensities, are 1 exactly from the ceiling and 0 exactly up to the minimum |
| `StigmergyNumbers.ScaleIsLinear` | src/coord/stigmergy.ts:568-581 | Between minimum and ceiling the shown level is the share of the span |
| `StigmergyProofs.HeatmapShowsTotals` | src/coord/stigmergy.ts:432-452 | The heatmap's recomputed sums are the totals kept, node for node, whenever totals agree |
| `Watcher.WatchContractNetPheromoneBounds` | src/coord/contractNetWatchers.ts:153-283 | A negative window is refused; otherwise the open calls are brought up to date before subscribing |
| `Watcher.BoundsWatcher.RefreshOpenCalls` | src/coord/contractNetWatchers.ts:208-233 | Every open call is updated in order of announcement and identifier; none fails |
| `Watcher.BoundsWatcher.Flush` | src/coord/contractNetWatchers.ts:235-254 | Nothing pending does nothing; bounds within 10^-6 are skipped; others are stored and carried over |
| `Watcher.BoundsWatcher.ScheduleRefresh` | src/coord/contractNetWatchers.ts:256-271 | Flushes at once without a window, else coalesces or starts the timer |
| `Watcher.BoundsWatcher.Listener` | src/coord/contractNetWatchers.ts:273-276 | Counts the update and schedules it |
| `Watcher.BoundsWatcher.TimerFires` | src/coord/contractNetWatchers.ts:266-269 | The timer callback |
| `Watcher.BoundsWatcher.DetachWatcher` | src/coord/contractNetWatchers.ts:284-291 | Unsubscribes, stops the timer and delivers what is pending |
| `WatcherProofs.UpdatesAreAccounted` | src/coord/contractNetWatchers.ts:235-291 | Over any joint run: received = coalesced + flushes + skipped + (1 if pending); an update is pending exactly while the timer runs, never after detaching; without a window nothing is coalesced |
| `WatcherProofs.BoundsAreFresh` | src/coord/contractNetWatchers.ts:199-291 | The last bounds have the minimum and maximum of the field, and whenever nothing is pending their ceiling is within 10^-6 of the field's, with no drift; every call open at the last refresh and still open has exactly them |
| `WatcherProofs.CeilingFollowsTotals` | src/coord/contractNetWatchers.ts:199-291 | Told by the totals: while nothing is pending no total is more than a millionth above the ceiling of the last bounds and one comes as near from below, unless none exceeds the minimum; a finite maximum is the ceiling |
| `WatcherProofs.FlushRefreshesIff` | src/coord/contractNetWatchers.ts:235-254 | A flush with an update pending refreshes if and only if the ceiling has moved by more than a millionth, and then gives the bounds of the field to every open call |
| `WatcherProofs.RefreshRenewsOffers` | src/coord/contractNetWatchers.ts:208-233 | A refresh renews heuristic bids on open calls, lets newcomers in, or neither, as the watcher was told |
| `WatcherProofs.WindowMakesUpdatesWait` | src/coord/contractNetWatchers.ts:256-276 | With a window an update starts the timer or joins the one that runs, and nothing else happens |
| `WatcherProofs.NoWindowMeansNoWait` | src/coord/contractNetWatchers.ts:256-276 | Without a window nothing is pending after an update and the bounds are near |
| `WatcherProofs.FixedMaximumNeverFlushes` | src/coord/contractNetWatchers.ts:241-248 | Under a finite maximum no update ever leads to a flush: all are coalesced, skipped or pending |
| `WatcherProofs.DetachDelivers` | src/coord/contractNetWatchers.ts:284-291 | Detaching leaves nothing pending, and bounds with the limits of the field and its ceiling up to 10^-6 |
| `WatcherProofs.RefreshReachesOpenCalls` | src/coord/contractNetWatchers.ts:208-233 | A refresh gives the bounds to exactly the open calls, changes no status and no other call, and counts if one was open |
| `WatcherProofs.FieldStepEmits` | src/coord/stigmergy.ts:229-383 | The last emission of a field operation shows the totals the operation leaves; without one, totals have not moved |
| `WatcherProofs.StepKeepsGood` | src/coord/contractNetWatchers.ts:235-291 | Every step of the joint system keeps accounting, freshness and coverage |
| `WatcherProofs.AttachIsGood` | src/coord/contractNetWatchers.ts:278-283 | They hold from the start, whatever field and coordinator are joined |
| `EventStores.EventStore.Emit` | src/eventStore.ts:276-347 | The event gets the next number and is pushed to the global list and its buckets, one shift keeping each within the limit |
| `EventStores.EventStore.SetMaxHistory` | src/eventStore.ts:413-480 | Every list is cut to its newest events |
| `EventStores.EventStore.List` | src/eventStore.ts:354-373 | Shows only retained events that pass the filters, all of them when no limit is given, in the window asked for |
| `EventStores.EventStore.ListForJob` | src/eventStore.ts:380-407 | The same for the events in the bucket of a job |
| `EventStores.ListingInNumbers` | src/eventStore.ts:244-257 | Retained events with the job, child and kinds asked for, above the number given, oldest first or reversed; a limit leaves out only the far end: the newest, or the oldest when reversed |
| `EventStores.RetainedIsIncreasing` | src/eventStore.ts:276-347 | The retained events and each job bucket are in the order of their numbers |
| `EventStores.IndexesAgreeWithLog` | src/eventStore.ts:276-480 | Under any mix of emissions and limit changes the global list and each job and kind bucket are suffixes of the (selected) stream, within the limit, and a bucket has whatever the global list still has |
| `EventStores.ListingJobsGloballyShowsTheEnd` | src/eventStore.ts:354-407 | With any further filters the global list for a job is a suffix of the job list; newest first, pages are prefixes |
| `EventStores.ListingKindsGloballyShowsTheEnd` | src/eventStore.ts:435-438 | The same for kinds |
| `EventStores.PollingMissesNothingIff` | src/eventStore.ts:354-373 | Asking for events after the last one seen gives all of them if and only if they are still retained |
| `ChildOutputs.ChildRuntime.ConsumeStdout` | src/childRuntime.ts:999-1008 | The loop over newlines records the complete lines of buffer and chunk and keeps the rest |
| `ChildOutputs.ChildRuntime.ConsumeStderr` | src/childRuntime.ts:1017-1026 | The same for the other stream |
| `ChildOutputs.ChildRuntime.FlushStdout` | src/childRuntime.ts:1010-1015 | What is left is recorded as a line |
| `ChildOutputs.ChildRuntime.RecordLine` | src/childRuntime.ts:1035-1066 | One carriage return is stripped, blank lines are skipped, messages are numbered by position |
| `ChildOutputs.ChildRuntime.StreamMessages` | src/childRuntime.ts:421-477 | Flushes both streams; refuses bad cursors, limits and empty filters; otherwise the first page of wanted messages after the cursor, whether there are more, and the next cursor |
| `ChildOutputs.FramedExactly` | src/childRuntime.ts:999-1008 | Framing is the one way to cut a text at its newlines |
| `ChildOutputs.FrameResumes` | src/childRuntime.ts:999-1008 | Framing can stop anywhere and go on with what is left over |
| `ChildOutputs.ChunkingDoesNotMatter` | src/childRuntime.ts:999-1066 | However a stream is cut into chunks and interleaved with the other stream and with reads, its messages depend only on its text, provided each read finds no unfinished line of it |
| `ChildOutputs.ReadsEndLines` | src/childRuntime.ts:421-423 | For every history of chunks and reads, the messages of a stream are the lines of the pieces its reads cut it into |
| `ChildOutputs.ReadIsHarmlessIff` | src/childRuntime.ts:421-423 | Whatever was recorded before, a read changes nothing that a stream records from any next chunk if and only if no unfinished line of that stream is buffered |
| `ChildOutputs.ReadingCutsLines` | src/childRuntime.ts:421-423 | Reading between the two parts of a line records two messages where one was sent |
| `ChildOutputs.PagingShowsAll` | src/childRuntime.ts:421-477 | Following the cursor until there is no more ends, and shows every wanted message once, in order, for every page size |
| `ChildOutputs.PageInNumbers` | src/childRuntime.ts:421-477 | A page holds messages after the cursor on the streams asked for, in order and without a gap, at most 50, or the limit up to 200; more are announced exactly when one is left, and then the page is full; the cursor is its last |
| `ChildOutputs.PrintedLinesArrive` | src/childRuntime.ts:999-1066 | Lines printed, with or without a carriage return, arrive as messages with their texts, in order; blank ones do not |
| `LogRotation.StructuredLogger.Append` | src/logger.ts:313-330 | One queued write moves the directory as the list of files specified |
| `LogRotation.StructuredLogger.RotateIfNeeded` | src/logger.ts:371-403 | Rotates exactly when the active file exists and would outgrow the limit |
| `LogRotation.StructuredLogger.PerformRotation` | src/logger.ts:406-441 | Every index below the count moves up by one, the last file goes, and no rename overwrites a file |
| `LogRotation.LogKeepsNewestLines` | src/logger.ts:371-441 | After any writes: at most the allowed number of files, together the newest lines in order, each within the limit or a single line, the last line always kept |
| `LogRotation.LogKeepsAsMuchAsFits` | src/logger.ts:371-441 | Nothing is lost before the allowed number of files is reached, and no file could have taken the first line of the next |
| `LogRotation.NoLimitKeepsAll` | src/logger.ts:372-374 | Without a size limit one file keeps everything |
| `Supervision.CreateSupervisor` | src/children/supervisionStrategy.ts:139-167 | Options out of range are refused; fractions of milliseconds and of a quota are cut off, and a quota that is not positive is none |
| `Supervision.OneForOneSupervisor.Acquire` | src/children/supervisionStrategy.ts:174-249 | Refused by the breaker, or started after the longer of the backoff and quota waits, at whatever time the second clock reading gives |
| `Supervision.OneForOneSupervisor.Fail` | src/children/supervisionStrategy.ts:252-262 | The delay grows and the next start is put off |
| `Supervision.OneForOneSupervisor.Succeed` | src/children/supervisionStrategy.ts:265-275 | Delay and attempts start over; the restart history stays |
| `Supervision.OneForOneSupervisor.PruneRestartHistory` | src/children/supervisionStrategy.ts:318-330 | The loop drops exactly the leading restarts older than a minute |
| `Supervision.OneForOneSupervisor.ComputeQuotaWait` | src/children/supervisionStrategy.ts:332-344 | The wait until the oldest retained restart is a minute old, when the quota is used up |
| `Supervision.BackoffIsCappedIterate` | src/children/supervisionStrategy.ts:304-311 | After k failures in a row the delay is the k-th uncapped delay cut to the maximum, within [min, max], never shrinking, and counted from the last failure |
| `Supervision.StartInNumbers` | src/children/supervisionStrategy.ts:174-203 | A start is at the latest of three times, plus lateness: when asked for, when the backoff allows, and, if the last 60000 milliseconds hold as many restarts as the quota, when the oldest of them leaves; a quota below one with none is the exception |
| `Supervision.FailuresDelayTheStart` | src/children/supervisionStrategy.ts:194-311 | Without a quota an attempt after k failures in a row starts when asked for, or once the k-th delay has passed since the last failure |
| `Supervision.GrowthInNumbers` | src/children/supervisionStrategy.ts:304-311 | A delay grows by the factor to the nearest millisecond, halves up |
| `Supervision.DelaysArePowers` | src/children/supervisionStrategy.ts:304-311 | With a whole factor the uncapped delays are the minimum times its powers |
| `Supervision.SuccessStartsOver` | src/children/supervisionStrategy.ts:265-302 | A success makes a key as new but for its restarts |
| `Supervision.NoStartTooEarly` | src/children/supervisionStrategy.ts:194-203 | An attempt starts no earlier than its backoff allows, except, exactly, when a quota below one with no restart on record skips the wait and the clock has not got there by itself |
| `Supervision.StartKeepsPaceIff` | src/children/supervisionStrategy.ts:313-344 | A start keeps every closed minute within the quota if and only if the quota is not below one and the start is not on the instant the oldest restart turns a minute old with the quota used up |
| `Supervision.QuotaHoldsIff` | src/children/supervisionStrategy.ts:174-344 | From any state within the quota, over any run of one key the quota holds in every closed minute if and only if no attempt is such a start |
| `Supervision.NewKeyHoldsQuotaIff` | src/children/supervisionStrategy.ts:174-344 | In particular from the first attempt of a key on |
| `Consensus.TallyVotes` | src/coord/consensus.ts:167-182 | One entry per value voted for, in order of first vote, with the weight of its votes; the total weight |
| `Consensus.ResolveWinner` | src/coord/consensus.ts:191-232 | The only top value wins; ties go to the preferred or first-voted top value, or stay |
| `Consensus.Majority` | src/coord/consensus.ts:239-258 | The decision at the majority threshold |
| `Consensus.Quorum` | src/coord/consensus.ts:264-282 | The decision at a given threshold |
| `Consensus.Weighted` | src/coord/consensus.ts:288-301 | A majority, or a given threshold on top of it |
| `Consensus.TallySumsToTotal` | src/coord/consensus.ts:167-182 | The tally sums to the total weight |
| `Consensus.VoteAddsItsWeight` | src/coord/consensus.ts:174-180 | A vote adds the weight of its voter to its value and to the total |
| `Consensus.UnweightedVotesAreCounted` | src/coord/consensus.ts:174-180 | Voters without a weight, or with a negative one, count once |
| `Consensus.MajorityOfVotes` | src/coord/consensus.ts:239-258 | Without weights a majority is satisfied if and only if a non-empty value has more than half of the votes |
| `Consensus.MajorityIsSound` | src/coord/consensus.ts:239-258 | A satisfied majority has strictly more than half of the weight and is the only value at the top |
| `Consensus.MajorityIffThresholdReached` | src/coord/consensus.ts:239-258 | For every vote and weight map a majority is satisfied if and only if a non-empty value reaches floor of half plus one |
| `Consensus.MajorityIsRobust` | src/coord/consensus.ts:239-258 | A satisfied outcome is the same under any order of the votes, tie breaker or preferred value |
| `Consensus.MajorityIsCompleteForWholeWeights` | src/coord/consensus.ts:246-248 | With whole weights that is when a non-empty value has more than half |
| `Consensus.FractionsCanFail` | src/coord/consensus.ts:246 | With others more than half may fall short: one voter of weight 0.6 has everything and is not satisfied |
| `Consensus.EmptyValueNeverSatisfies` | src/coord/consensus.ts:247 | A majority for the empty value is never satisfied |
| `Consensus.WinnerIsTop` | src/coord/consensus.ts:191-232 | A winner, by whatever rule, has the greatest weight |
| `Consensus.QuorumIffReached` | src/coord/consensus.ts:264-282 | For every quorum, satisfied if and only if there is a winner that reaches it, an empty winner counting as zero |
| `Consensus.WeightIgnoresOrder` | src/coord/consensus.ts:174-180 | Weights do not depend on the order of the votes |

## Left out

What the models assume or do not capture:

- Numbers: floating point is modelled with `real`; `NaN`, infinities (an absent maximum is `None`) and rounding are not. `Math.log1p`, `Math.pow(0.5, _)` and `localeCompare` are parameters: any function, any function into [0, 1], any total order.
- Clocks are parameters. The clock of the blackboard never goes back, and its operations take one reading, or two for `set` in `TwoReadingsAreEagerIff`; the further readings of `batchSet`, one for each entry, and the timestamp that `delete` reads for its event are not modelled.
- Text is a sequence of characters, not of UTF-16 units. Trimming knows the ASCII blanks. Lower-casing and trimming of pheromone types is a parameter, tags are taken as already normalised.
- Graph Forge numerals stay digit strings; `Number(text)` is not modelled.
- Trees hold no tokens and no source locations; locations are proved on the token list. Compile errors name the culprit, not its line.
- Listeners do not call back into the object that notifies them. Emitting an event is appending it to a log.
- Payloads, tags, metadata, deadlines and correlation identifiers of Contract-Net calls are dropped or opaque; the data of a manual bid is a string; preferred identifiers are taken without blank ones.
- Random call identifiers are assumed new. Getters that only copy a field are not modelled.
- Orderings for presentation are not modelled: bids inside a call snapshot, refreshed agents, field snapshots and heatmap cells are maps or sets.
- Values are immutable, so `structuredClone` only matters where it fails, in `set` and `batchSet` of the blackboard. Unsubscribing a blackboard watcher is not modelled.
- The watcher's bounds are never absent: they are captured before anything else happens, so the comparisons with `null` are not modelled. Its telemetry and logging are not modelled; its counters are.
- Of the heatmap, sums and contributions are modelled and proved, as is the scale; the list of cells is not built.
- Event timestamps, levels, sources and provenance, and the parsed form and arrival time of child messages, are dropped. Limits are integers.
- Log files hold lines with a size in bytes; file operations succeed and the directory starts empty.
- The circuit breaker only allows or refuses an attempt; its own events are not modelled. Attempts on one key follow one another, and sleeping ends on time or late. The one wait that is not a number is `None`, and no sleep is taken for it.
- `clear` of the supervisor forgets the restart history of a key, so the quota theorem is about runs without it.

Deliberately weaker:

- `ContractNetProofs.EventsRebuildState`: the replica is compared on what a coordinator shows (agents, calls, bids, counts), not on clock readings taken.
- `WatcherProofs.BoundsAreFresh`: says nothing about calls announced after the last refresh; they keep the bounds they were announced with until the next one.

Not modelled at all: the HTTP server, the filesystem bridge, process spawning and the sandbox, artifact hashing,
the autoscaler and the orchestrator supervisor, plan and review heuristics, dashboards and formatting helpers, and
the graph algorithms. They are wiring around libraries, or each claim about them would be one branch read aloud.
