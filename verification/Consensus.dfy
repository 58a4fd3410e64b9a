/**
 Weighted votes (src/coord/consensus.ts, lines 167-305): the tally, the winner, and the three ways to decide.
 */
module Consensus {
  import opened Outcomes
  import opened JsMaps

  datatype Vote = Vote(voter: string, value: string)

  datatype TieBreaker = Unresolved | First | Prefer

  datatype Options = Options(weights: map<string, real>, preferValue: string, tieBreaker: TieBreaker)

  datatype Winner = Winner(winner: Option<string>, tie: bool)

  datatype Decision = Decision(outcome: Option<string>, satisfied: bool, tie: bool, threshold: real,
    totalWeight: real, tally: JsMap<real>)

  // ---------------------------------------------------------------------------------------------
  // Specification
  // ---------------------------------------------------------------------------------------------

  /** A voter without a weight, or with a negative one, counts once. */
  function WeightOf(weights: map<string, real>, voter: string): (w: real)
    ensures w >= 0.0
  {
    if voter in weights && weights[voter] >= 0.0 then weights[voter] else 1.0
  }

  /** Total weight of the votes for `value`, or of all votes. */
  function Weight(votes: seq<Vote>, weights: map<string, real>, value: Option<string>): (w: real)
    ensures w >= 0.0
  {
    if votes == [] then 0.0
    else
      var last := votes[|votes| - 1];
      Weight(votes[..|votes| - 1], weights, value) +
      (if value.None? || last.value == value.value then WeightOf(weights, last.voter) else 0.0)
  }

  /** The values voted for, in the order of their first vote. */
  function Values(votes: seq<Vote>): seq<string> {
    if votes == [] then []
    else
      var front, v := Values(votes[..|votes| - 1]), votes[|votes| - 1].value;
      if v in front then front else front + [v]
  }

  ghost predicate Tallies(tally: JsMap<real>, votes: seq<Vote>, weights: map<string, real>) {
    && tally.Valid() && tally.keys == Values(votes)
    && forall v :: v in tally.rows ==> tally.rows[v] == Weight(votes, weights, Some(v))
  }

  /** No value has more weight. */
  ghost predicate IsTop(tally: JsMap<real>, value: string) {
    value in tally.rows && forall v :: v in tally.rows ==> tally.rows[v] <= tally.rows[value]
  }

  ghost predicate OnlyTop(tally: JsMap<real>, value: string) {
    IsTop(tally, value) && forall v :: IsTop(tally, v) ==> v == value
  }

  /**
   The only value at the top wins. Among several, a preferred or the first-voted one may be picked; otherwise the
   tie stands.
   */
  ghost predicate Resolves(w: Winner, votes: seq<Vote>, tally: JsMap<real>, options: Options) {
    if tally.keys == [] then w == Winner(None, false)
    else if exists v :: OnlyTop(tally, v) then w.winner.Some? && OnlyTop(tally, w.winner.value) && !w.tie
    else if options.tieBreaker == Prefer && options.preferValue != "" && IsTop(tally, options.preferValue) then
      w == Winner(Some(options.preferValue), false)
    else if options.tieBreaker == First then
      && w.winner.Some? && !w.tie
      && exists k: nat :: FirstTop(votes, tally, k) && votes[k].value == w.winner.value
    else w == Winner(None, true)
  }

  ghost predicate FirstTop(votes: seq<Vote>, tally: JsMap<real>, k: nat) {
    k < |votes| && IsTop(tally, votes[k].value) && forall i :: 0 <= i < k ==> !IsTop(tally, votes[i].value)
  }

  function WinningWeight(winner: Option<string>, tally: JsMap<real>): real {
    if winner.Some? && winner.value != "" && tally.Has(winner.value) then tally.rows[winner.value] else 0.0
  }

  function MajorityThreshold(total: real): real {
    if total > 0.0 then (total / 2.0).Floor as real + 1.0 else 1.0
  }

  // ---------------------------------------------------------------------------------------------
  // Deciding
  // ---------------------------------------------------------------------------------------------

  method TallyVotes(votes: seq<Vote>, weights: map<string, real>) returns (tally: JsMap<real>, totalWeight: real)
    ensures Tallies(tally, votes, weights) && totalWeight == Weight(votes, weights, None)
  {
    hide Tallies, WeightOf;
    tally, totalWeight := Empty(), 0.0;
    NothingTallied(weights);
    assert votes[..0] == [];
    for n := 0 to |votes|
      invariant Tallies(tally, votes[..n], weights)
      invariant totalWeight == Weight(votes[..n], weights, None)
    {
      var vote := votes[n];
      var weight := WeightOf(weights, vote.voter);
      TallyNext(tally, votes, n, weights);
      var current := if tally.Has(vote.value) then tally.rows[vote.value] else 0.0;
      tally := tally.Put(vote.value, current + weight);
      totalWeight := totalWeight + weight;
    }
    assert votes[..|votes|] == votes;
  }

  method ResolveWinner(votes: seq<Vote>, tally: JsMap<real>, options: Options) returns (w: Winner)
    requires tally.Valid() && forall v :: v in tally.keys <==> exists k :: 0 <= k < |votes| && votes[k].value == v
    ensures Resolves(w, votes, tally, options)
  {
    if |tally.keys| == 0 {
      return Winner(None, false);
    }
    var topValues := TopValues(tally);
    if |topValues| == 1 {
      assert topValues[0] in topValues;
      assert OnlyTop(tally, topValues[0]);
      return Winner(Some(topValues[0]), false);
    }
    assert topValues[0] in topValues && topValues[1] in topValues && topValues[0] != topValues[1];
    assert forall v :: !OnlyTop(tally, v);
    if options.tieBreaker == Prefer {
      if options.preferValue != "" && options.preferValue in topValues {
        return Winner(Some(options.preferValue), false);
      }
    } else if options.tieBreaker == First {
      w := FirstVoted(votes, tally, topValues);
      return;
    }
    return Winner(None, true);
  }

  method MaxWeight(tally: JsMap<real>) returns (maxWeight: real)
    requires tally.Valid() && |tally.keys| > 0
    ensures forall v :: v in tally.rows ==> tally.rows[v] <= maxWeight
    ensures exists v :: v in tally.rows && tally.rows[v] == maxWeight
  {
    var keys := tally.keys;
    assert keys[0] in tally.rows;
    var at;
    maxWeight, at := tally.rows[keys[0]], 0;
    for n := 1 to |keys|
      invariant at < |keys| && keys[at] in tally.rows && maxWeight == tally.rows[keys[at]]
      invariant forall i :: 0 <= i < n ==> keys[i] in tally.rows && tally.rows[keys[i]] <= maxWeight
    {
      assert keys[n] in tally.rows;
      if tally.rows[keys[n]] > maxWeight {
        maxWeight, at := tally.rows[keys[n]], n;
      }
    }
  }

  /** The values of maximal weight, in tally order. */
  method TopValues(tally: JsMap<real>) returns (topValues: seq<string>)
    requires tally.Valid() && |tally.keys| > 0
    ensures forall v :: v in topValues <==> IsTop(tally, v)
    ensures |topValues| >= 1 && forall i, j :: 0 <= i < j < |topValues| ==> topValues[i] != topValues[j]
  {
    var keys := tally.keys;
    var maxWeight := MaxWeight(tally);
    topValues := [];
    for n := 0 to |keys|
      invariant forall v :: v in topValues <==> v in keys[..n] && v in tally.rows && tally.rows[v] == maxWeight
      invariant forall i, j :: 0 <= i < j < |topValues| ==> topValues[i] != topValues[j]
    {
      assert keys[n] in tally.rows && keys[n] !in keys[..n];
      assert keys[..n + 1] == keys[..n] + [keys[n]];
      if tally.rows[keys[n]] == maxWeight {
        topValues := topValues + [keys[n]];
      }
    }
    assert keys[..|keys|] == keys;
    ghost var top :| top in tally.rows && tally.rows[top] == maxWeight;
    assert top in topValues;
  }

  method FirstVoted(votes: seq<Vote>, tally: JsMap<real>, topValues: seq<string>) returns (w: Winner)
    requires |topValues| >= 1 && forall v :: v in topValues <==> IsTop(tally, v)
    requires forall v :: v in topValues ==> exists k :: 0 <= k < |votes| && votes[k].value == v
    ensures w.winner.Some? && !w.tie && exists k: nat :: FirstTop(votes, tally, k) && votes[k].value == w.winner.value
  {
    hide IsTop;
    assert topValues[0] in topValues;
    ghost var found :| 0 <= found < |votes| && votes[found].value == topValues[0];
    var n := 0;
    while votes[n].value !in topValues
      invariant n <= found && forall i :: 0 <= i < n ==> votes[i].value !in topValues
      decreases |votes| - n
    {
      n := n + 1;
    }
    assert FirstTop(votes, tally, n);
    return Winner(Some(votes[n].value), false);
  }

  method Majority(votes: seq<Vote>, options: Options) returns (d: Decision)
    ensures DecidedBy(d, votes, options, MajorityThreshold(Weight(votes, options.weights, None)))
  {
    d := Decide(votes, options, None);
  }

  method Quorum(votes: seq<Vote>, options: Options, quorum: real) returns (d: Decision)
    ensures DecidedBy(d, votes, options, quorum)
  {
    d := Decide(votes, options, Some(quorum));
  }

  /** A majority, unless a quorum is given. */
  method Weighted(votes: seq<Vote>, options: Options, quorum: Option<real>) returns (d: Decision)
    ensures DecidedBy(d, votes, options, quorum.GetOr(MajorityThreshold(Weight(votes, options.weights, None))))
  {
    var base := Majority(votes, options);
    if quorum.Some? {
      var winningWeight := WinningWeight(base.outcome, base.tally);
      return base.(threshold := quorum.value, satisfied := base.outcome.Some? && winningWeight >= quorum.value);
    }
    return base;
  }

  /** What the three decisions share. Without a threshold given it is that of a majority. */
  method Decide(votes: seq<Vote>, options: Options, given: Option<real>) returns (d: Decision)
    ensures DecidedBy(d, votes, options, given.GetOr(MajorityThreshold(Weight(votes, options.weights, None))))
  {
    hide Resolves, Weight, MajorityThreshold;
    var tally, totalWeight := TallyVotes(votes, options.weights);
    ValuesAreVoted(votes);
    var w := ResolveWinner(votes, tally, options);
    var threshold := if given.Some? then given.value else MajorityThreshold(totalWeight);
    var winningWeight := WinningWeight(w.winner, tally);
    var satisfied := w.winner.Some? && winningWeight >= threshold;
    return Decision(w.winner, satisfied, w.tie, threshold, totalWeight, tally);
  }

  ghost predicate DecidedBy(d: Decision, votes: seq<Vote>, options: Options, threshold: real) {
    && Tallies(d.tally, votes, options.weights) && d.totalWeight == Weight(votes, options.weights, None)
    && Resolves(Winner(d.outcome, d.tie), votes, d.tally, options)
    && d.threshold == threshold
    && (d.satisfied <==> d.outcome.Some? && WinningWeight(d.outcome, d.tally) >= threshold)
  }

  // ---------------------------------------------------------------------------------------------
  // The tally
  // ---------------------------------------------------------------------------------------------

  lemma NothingTallied(weights: map<string, real>)
    ensures Tallies(Empty(), [], weights)
  {
  }

  lemma {:induction false} ValuesAreVoted(votes: seq<Vote>)
    ensures forall v :: v in Values(votes) <==> exists k :: 0 <= k < |votes| && votes[k].value == v
  {
    if votes != [] {
      var front, last := votes[..|votes| - 1], votes[|votes| - 1];
      ValuesAreVoted(front);
      forall v ensures v in Values(votes) <==> exists k :: 0 <= k < |votes| && votes[k].value == v {
        if v in Values(votes) && v != last.value {
          assert v in Values(front);
          var k :| 0 <= k < |front| && front[k].value == v;
          assert votes[k].value == v;
        }
        if k :| 0 <= k < |votes| && votes[k].value == v {
          assert k < |front| ==> front[k].value == v;
        }
        assert votes[|votes| - 1].value == last.value;
      }
    }
  }

  lemma {:induction false} UnvotedHasNoWeight(votes: seq<Vote>, weights: map<string, real>, value: string)
    requires value !in Values(votes)
    ensures Weight(votes, weights, Some(value)) == 0.0
  {
    if votes != [] {
      UnvotedHasNoWeight(votes[..|votes| - 1], weights, value);
    }
  }

  lemma {:induction false} WeightyIsVoted(votes: seq<Vote>, weights: map<string, real>, value: string)
    requires Weight(votes, weights, Some(value)) > 0.0
    ensures value in Values(votes)
  {
    if votes[|votes| - 1].value != value {
      WeightyIsVoted(votes[..|votes| - 1], weights, value);
    }
  }

  lemma TallyNext(tally: JsMap<real>, votes: seq<Vote>, n: nat, weights: map<string, real>)
    requires n < |votes| && Tallies(tally, votes[..n], weights)
    ensures var vote := votes[n];
            var current := if tally.Has(vote.value) then tally.rows[vote.value] else 0.0;
            Tallies(tally.Put(vote.value, current + WeightOf(weights, vote.voter)), votes[..n + 1], weights)
    ensures Weight(votes[..n + 1], weights, None) ==
      Weight(votes[..n], weights, None) + WeightOf(weights, votes[n].voter)
  {
    hide WeightOf, Weight;
    var vote := votes[n];
    WeightNext(votes, n, weights, None);
    forall v: string
      ensures Weight(votes[..n + 1], weights, Some(v)) ==
                Weight(votes[..n], weights, Some(v)) + (if v == vote.value then WeightOf(weights, vote.voter) else 0.0)
    {
      WeightNext(votes, n, weights, Some(v));
    }
    assert votes[..n + 1][..n] == votes[..n];
    assert tally.Has(vote.value) <==> vote.value in Values(votes[..n]);
    if !tally.Has(vote.value) {
      UnvotedHasNoWeight(votes[..n], weights, vote.value);
    }
  }

  lemma WeightNext(votes: seq<Vote>, n: nat, weights: map<string, real>, value: Option<string>)
    requires n < |votes|
    ensures Weight(votes[..n + 1], weights, value) ==
              Weight(votes[..n], weights, value) +
              (if value.None? || votes[n].value == value.value then WeightOf(weights, votes[n].voter) else 0.0)
  {
    hide WeightOf;
    assert votes[..n + 1][..n] == votes[..n];
  }

  /** Sum of the weights tallied for `keys`. */
  function Sum(tally: JsMap<real>, keys: seq<string>): real {
    if keys == [] then 0.0
    else Sum(tally, keys[..|keys| - 1]) + (if tally.Has(keys[|keys| - 1]) then tally.rows[keys[|keys| - 1]] else 0.0)
  }

  /** Weight of the votes for the values in `keys`. */
  lemma {:induction false} SumOverValues(votes: seq<Vote>, weights: map<string, real>, keys: seq<string>)
    requires forall i, j :: 0 <= i < j < |keys| ==> keys[i] != keys[j]
    ensures votes != [] ==>
              SumOf(votes, weights, keys) ==
              SumOf(votes[..|votes| - 1], weights, keys) +
              (if votes[|votes| - 1].value in keys then WeightOf(weights, votes[|votes| - 1].voter) else 0.0)
    ensures votes == [] ==> SumOf(votes, weights, keys) == 0.0
  {
    hide WeightOf;
    if keys != [] {
      var front, last := keys[..|keys| - 1], keys[|keys| - 1];
      assert keys == front + [last] && last !in front;
      SumOverValues(votes, weights, front);
    }
  }

  function SumOf(votes: seq<Vote>, weights: map<string, real>, keys: seq<string>): real {
    if keys == [] then 0.0
    else SumOf(votes, weights, keys[..|keys| - 1]) + Weight(votes, weights, Some(keys[|keys| - 1]))
  }

  lemma {:induction false} SumOfAllIsTotal(votes: seq<Vote>, weights: map<string, real>, keys: seq<string>)
    requires forall i, j :: 0 <= i < j < |keys| ==> keys[i] != keys[j]
    requires forall k :: 0 <= k < |votes| ==> votes[k].value in keys
    ensures SumOf(votes, weights, keys) == Weight(votes, weights, None)
  {
    hide WeightOf;
    SumOverValues(votes, weights, keys);
    if votes != [] {
      SumOfAllIsTotal(votes[..|votes| - 1], weights, keys);
    }
  }

  lemma {:induction false} SumIsSumOf(tally: JsMap<real>, votes: seq<Vote>, weights: map<string, real>,
    keys: seq<string>)
    requires Tallies(tally, votes, weights) && forall k :: k in keys ==> k in tally.rows
    ensures Sum(tally, keys) == SumOf(votes, weights, keys)
  {
    hide Weight;
    if keys != [] {
      SumIsSumOf(tally, votes, weights, keys[..|keys| - 1]);
    }
  }

  /** The tally accounts for every vote: its weights sum to the total. */
  lemma TallySumsToTotal(tally: JsMap<real>, votes: seq<Vote>, weights: map<string, real>)
    requires Tallies(tally, votes, weights)
    ensures Sum(tally, tally.keys) == Weight(votes, weights, None)
  {
    hide Weight, Sum, SumOf;
    ValuesAreVoted(votes);
    forall k | 0 <= k < |votes| ensures votes[k].value in tally.keys {
      assert votes[k].value in Values(votes);
    }
    SumIsSumOf(tally, votes, weights, tally.keys);
    SumOfAllIsTotal(votes, weights, tally.keys);
  }

  /** Two values never weigh more than all. */
  lemma {:induction false} TwoWithinTotal(votes: seq<Vote>, weights: map<string, real>, a: string, b: string)
    requires a != b
    ensures Weight(votes, weights, Some(a)) + Weight(votes, weights, Some(b)) <= Weight(votes, weights, None)
  {
    hide WeightOf;
    if votes != [] {
      TwoWithinTotal(votes[..|votes| - 1], weights, a, b);
    }
  }

  // ---------------------------------------------------------------------------------------------
  // Majorities
  // ---------------------------------------------------------------------------------------------

  lemma ThresholdIsMoreThanHalf(total: real)
    ensures MajorityThreshold(total) > total / 2.0
  {
  }

  /** A value with more than half of the weight is the only one at the top. */
  lemma HalfIsOnlyTop(tally: JsMap<real>, votes: seq<Vote>, weights: map<string, real>, value: string)
    requires Tallies(tally, votes, weights) && Weight(votes, weights, Some(value)) > Weight(votes, weights, None) / 2.0
    ensures OnlyTop(tally, value)
  {
    hide Weight;
    assert Weight(votes, weights, None) >= 0.0;
    WeightyIsVoted(votes, weights, value);
    forall v | v in tally.rows && v != value ensures tally.rows[v] < tally.rows[value] {
      TwoWithinTotal(votes, weights, v, value);
    }
  }

  /** A satisfied majority is named, not empty, and has strictly more than half of the weight. */
  lemma MajorityIsSound(d: Decision, votes: seq<Vote>, options: Options)
    requires DecidedBy(d, votes, options, MajorityThreshold(Weight(votes, options.weights, None))) && d.satisfied
    ensures d.outcome.Some? && d.outcome.value != "" && !d.tie
    ensures Weight(votes, options.weights, d.outcome) > d.totalWeight / 2.0
    ensures OnlyTop(d.tally, d.outcome.value)
  {
    hide Weight, OnlyTop;
    ThresholdIsMoreThanHalf(d.totalWeight);
    HalfIsOnlyTop(d.tally, votes, options.weights, d.outcome.value);
  }

  /** Where the last of some votes stands in a reordering, and that the others are a reordering too. */
  lemma LastElsewhere(a: seq<Vote>, b: seq<Vote>) returns (k: nat)
    requires multiset(a) == multiset(b) && a != []
    ensures k < |b| && b[k] == a[|a| - 1]
    ensures multiset(a[..|a| - 1]) == multiset(b[..k] + b[k + 1..])
  {
    var front, last := a[..|a| - 1], a[|a| - 1];
    assert a == front + [last];
    assert last in multiset(b);
    k :| 0 <= k < |b| && b[k] == last;
    assert b == b[..k] + [last] + b[k + 1..];
    assert multiset(b) == multiset(b[..k] + b[k + 1..]) + multiset{last};
    assert multiset(a) == multiset(front) + multiset{last};
    SameRest(multiset(front), multiset(b[..k] + b[k + 1..]), last);
  }

  lemma SameRest(x: multiset<Vote>, y: multiset<Vote>, v: Vote)
    requires x + multiset{v} == y + multiset{v}
    ensures x == y
  {
    assert x == x + multiset{v} - multiset{v};
    assert y == y + multiset{v} - multiset{v};
  }

  lemma {:induction false} WeightIgnoresOrder(a: seq<Vote>, b: seq<Vote>, weights: map<string, real>,
    value: Option<string>)
    requires multiset(a) == multiset(b)
    ensures Weight(a, weights, value) == Weight(b, weights, value)
    decreases |a|
  {
    hide WeightOf;
    if a == [] {
      assert |multiset(b)| == |b|;
    } else {
      var k := LastElsewhere(a, b);
      WeightIgnoresOrder(a[..|a| - 1], b[..k] + b[k + 1..], weights, value);
      WeightWithout(b, k, weights, value);
    }
  }

  lemma {:induction false} WeightWithout(b: seq<Vote>, k: nat, weights: map<string, real>, value: Option<string>)
    requires k < |b|
    ensures Weight(b, weights, value) ==
              Weight(b[..k] + b[k + 1..], weights, value) +
              (if value.None? || b[k].value == value.value then WeightOf(weights, b[k].voter) else 0.0)
    decreases |b|
  {
    hide WeightOf;
    if k == |b| - 1 {
      assert b[..k] + b[k + 1..] == b[..k];
    } else {
      var front, last := b[..|b| - 1], b[|b| - 1];
      WeightWithout(front, k, weights, value);
      var rest := b[..k] + b[k + 1..];
      assert rest[..|rest| - 1] == front[..k] + front[k + 1..] && rest[|rest| - 1] == last;
    }
  }

  /**
   A satisfied majority does not depend on the order of the votes, the tie breaker or the preferred value: any
   such change gives the same satisfied outcome.
   */
  lemma MajorityIsRobust(d: Decision, d': Decision, votes: seq<Vote>, votes': seq<Vote>, options: Options,
    options': Options)
    requires multiset(votes) == multiset(votes') && options'.weights == options.weights
    requires DecidedBy(d, votes, options, MajorityThreshold(Weight(votes, options.weights, None)))
    requires DecidedBy(d', votes', options', MajorityThreshold(Weight(votes', options.weights, None)))
    requires d.satisfied
    ensures d'.satisfied && d'.outcome == d.outcome && d'.tie == d.tie
    ensures d'.threshold == d.threshold && d'.totalWeight == d.totalWeight
  {
    hide Weight, MajorityThreshold, IsTop;
    MajorityIsSound(d, votes, options);
    WeightIgnoresOrder(votes, votes', options.weights, None);
    WeightIgnoresOrder(votes, votes', options.weights, d.outcome);
    HalfIsOnlyTop(d'.tally, votes', options.weights, d.outcome.value);
    assert d'.tally.Has(d.outcome.value) by { TopIsThere(d'.tally, d.outcome.value); }
    assert d.tally.Has(d.outcome.value) by { TopIsThere(d.tally, d.outcome.value); }
    assert d'.tally.keys != [];
  }

  lemma TopIsThere(tally: JsMap<real>, value: string)
    requires OnlyTop(tally, value)
    ensures tally.Has(value)
  {
  }

  predicate Whole(x: real) {
    x == x.Floor as real
  }

  lemma FloorOfWhole(n: int, x: real)
    requires x == n as real
    ensures Whole(x) && x.Floor == n
  {
  }

  lemma WholeSum(a: real, b: real)
    requires Whole(a) && Whole(b)
    ensures Whole(a + b)
  {
    hide Whole;
    var i, j := a.Floor, b.Floor;
    assert a == i as real && b == j as real by { WholeIsFloor(a); WholeIsFloor(b); }
    FloorOfWhole(i + j, a + b);
  }

  lemma WholeIsFloor(x: real)
    requires Whole(x)
    ensures x == x.Floor as real
  {
  }

  lemma {:induction false} WholeWeights(votes: seq<Vote>, weights: map<string, real>, value: Option<string>)
    requires forall voter :: voter in weights ==> Whole(weights[voter])
    ensures Whole(Weight(votes, weights, value))
  {
    hide Whole;
    assert Whole(0.0) && Whole(1.0) by { WholeUnits(); }
    if votes != [] {
      var front, last := votes[..|votes| - 1], votes[|votes| - 1];
      WholeWeights(front, weights, value);
      WholeSum(Weight(front, weights, value),
        if value.None? || last.value == value.value then WeightOf(weights, last.voter) else 0.0);
    }
  }

  lemma WholeUnits()
    ensures Whole(0.0) && Whole(1.0)
  {
  }

  lemma HalfOfWhole(t: int)
    ensures (t as real / 2.0).Floor == t / 2
  {
    var h := t / 2;
    assert t == 2 * h || t == 2 * h + 1;
    assert t as real / 2.0 == h as real || t as real / 2.0 == h as real + 0.5;
  }

  lemma WholeOverHalf(w: real, total: real)
    requires Whole(w) && Whole(total) && total >= 0.0
    ensures w > total / 2.0 <==> w >= MajorityThreshold(total)
  {
    var n, t := w.Floor, total.Floor;
    assert w == n as real && total == t as real;
    HalfOfWhole(t);
    if total > 0.0 {
      assert MajorityThreshold(total) == (t / 2 + 1) as real;
      assert w > total / 2.0 <==> 2 * n > t;
    }
  }

  /**
   Whatever the weights, a majority is satisfied exactly when some value other than the empty one reaches the
   threshold: no tie breaker and no other value can stand in its way.
   */
  lemma MajorityIffThresholdReached(d: Decision, votes: seq<Vote>, options: Options)
    requires DecidedBy(d, votes, options, MajorityThreshold(Weight(votes, options.weights, None)))
    ensures d.satisfied <==>
              exists v :: v != "" && Weight(votes, options.weights, Some(v)) >= MajorityThreshold(d.totalWeight)
  {
    hide Weight, IsTop, MajorityThreshold;
    ThresholdIsMoreThanHalf(d.totalWeight);
    if d.satisfied {
      MajorityIsSound(d, votes, options);
      TopIsThere(d.tally, d.outcome.value);
      assert Weight(votes, options.weights, Some(d.outcome.value)) >= MajorityThreshold(d.totalWeight);
    }
    if v :| v != "" && Weight(votes, options.weights, Some(v)) >= MajorityThreshold(d.totalWeight) {
      HalfIsOnlyTop(d.tally, votes, options.weights, v);
      TopIsThere(d.tally, v);
      assert d.tally.keys != [];
      assert d.outcome == Some(v);
    }
  }

  /** With whole weights that is when some value other than the empty one has more than half. */
  lemma MajorityIsCompleteForWholeWeights(d: Decision, votes: seq<Vote>, options: Options)
    requires DecidedBy(d, votes, options, MajorityThreshold(Weight(votes, options.weights, None)))
    requires forall voter :: voter in options.weights ==> Whole(options.weights[voter])
    ensures d.satisfied <==> exists v :: v != "" && Weight(votes, options.weights, Some(v)) > d.totalWeight / 2.0
  {
    hide Weight, Tallies, Resolves, MajorityThreshold;
    MajorityIffThresholdReached(d, votes, options);
    WholeWeights(votes, options.weights, None);
    forall v: string
      ensures Weight(votes, options.weights, Some(v)) > d.totalWeight / 2.0 <==>
                Weight(votes, options.weights, Some(v)) >= MajorityThreshold(d.totalWeight)
    {
      WholeWeights(votes, options.weights, Some(v));
      WholeOverHalf(Weight(votes, options.weights, Some(v)), d.totalWeight);
    }
  }

  /** With other weights more than half can fall short: one voter of weight 0.6 is all there is, and
      the threshold is 1. */
  lemma FractionsCanFail(d: Decision, votes: seq<Vote>, options: Options)
    requires votes == [Vote("a", "yes")] && options.weights == map["a" := 0.6]
    requires DecidedBy(d, votes, options, MajorityThreshold(Weight(votes, options.weights, None)))
    ensures Weight(votes, options.weights, Some("yes")) > d.totalWeight / 2.0 && !d.satisfied
  {
    hide Weight;
    assert WeightOf(options.weights, "a") == 0.6;
    OneVote(Vote("a", "yes"), options.weights);
    assert 0.0 <= 0.6 / 2.0 < 1.0;
    assert MajorityThreshold(0.6) == 1.0;
    if d.outcome.Some? && d.tally.Has(d.outcome.value) {
      WeightWithinTotal(votes, options.weights, d.outcome.value);
    }
  }

  lemma OneVote(vote: Vote, weights: map<string, real>)
    ensures Weight([vote], weights, None) == WeightOf(weights, vote.voter)
    ensures Weight([vote], weights, Some(vote.value)) == WeightOf(weights, vote.voter)
  {
    hide WeightOf;
    assert [vote][..0] == [];
  }

  lemma {:induction false} WeightWithinTotal(votes: seq<Vote>, weights: map<string, real>, value: string)
    ensures Weight(votes, weights, Some(value)) <= Weight(votes, weights, None)
  {
    hide WeightOf;
    if votes != [] {
      WeightWithinTotal(votes[..|votes| - 1], weights, value);
    }
  }

  /** The empty value can win, but a majority for it is never satisfied: its weight is read as zero. */
  lemma EmptyValueNeverSatisfies(d: Decision, votes: seq<Vote>, options: Options)
    requires DecidedBy(d, votes, options, MajorityThreshold(Weight(votes, options.weights, None)))
      && d.outcome == Some("")
    ensures !d.satisfied
  {
    hide Weight, Resolves, Tallies;
    assert d.totalWeight >= 0.0;
    ThresholdIsMoreThanHalf(d.totalWeight);
  }

  /** A winner, by whatever rule, has the greatest weight of all values. */
  lemma WinnerIsTop(d: Decision, votes: seq<Vote>, options: Options, threshold: real, value: string)
    requires DecidedBy(d, votes, options, threshold) && d.outcome.Some?
    ensures Weight(votes, options.weights, Some(value)) <= Weight(votes, options.weights, d.outcome)
  {
    hide Weight;
    var winner := d.outcome.value;
    assert IsTop(d.tally, winner);
    if value !in d.tally.rows {
      UnvotedHasNoWeight(votes, options.weights, value);
    }
  }

  /** A quorum is satisfied exactly when the winner has it; a nameless winner counts as having nothing, which is enough
      for a quorum that is not positive. */
  lemma QuorumIffReached(d: Decision, votes: seq<Vote>, options: Options, quorum: real)
    requires DecidedBy(d, votes, options, quorum)
    ensures d.satisfied <==>
      d.outcome.Some?
      && if d.outcome.value == "" then quorum <= 0.0 else Weight(votes, options.weights, d.outcome) >= quorum
  {
    hide Weight;
    if d.outcome.Some? {
      assert IsTop(d.tally, d.outcome.value);
    }
  }

  // ---------------------------------------------------------------------------------------------
  // Weights in numbers
  // ---------------------------------------------------------------------------------------------

  /** The votes for a value. */
  function VotesFor(votes: seq<Vote>, value: string): nat {
    if votes == [] then 0
    else VotesFor(votes[..|votes| - 1], value) + if votes[|votes| - 1].value == value then 1 else 0
  }

  /** Voters without a weight of their own, or with a negative one, count once each. */
  lemma {:induction false} UnweightedVotesAreCounted(votes: seq<Vote>, weights: map<string, real>, value: string)
    requires forall k :: 0 <= k < |votes| && votes[k].voter in weights ==> weights[votes[k].voter] < 0.0
    ensures Weight(votes, weights, Some(value)) == VotesFor(votes, value) as real
    ensures Weight(votes, weights, None) == |votes| as real
  {
    if votes != [] {
      UnweightedVotesAreCounted(votes[..|votes| - 1], weights, value);
    }
  }

  /** A vote adds the weight of its voter to its value and to the total, and to nothing else. */
  lemma VoteAddsItsWeight(votes: seq<Vote>, vote: Vote, weights: map<string, real>, value: string)
    requires vote.voter in weights && weights[vote.voter] >= 0.0
    ensures Weight(votes + [vote], weights, None) == Weight(votes, weights, None) + weights[vote.voter]
    ensures Weight(votes + [vote], weights, Some(value)) ==
              Weight(votes, weights, Some(value)) + if vote.value == value then weights[vote.voter] else 0.0
  {
    assert (votes + [vote])[..|votes|] == votes;
  }

  /** Without weights a majority is satisfied exactly when a non-empty value has more than half of the votes. */
  lemma MajorityOfVotes(d: Decision, votes: seq<Vote>, options: Options)
    requires DecidedBy(d, votes, options, MajorityThreshold(Weight(votes, options.weights, None)))
    requires options.weights == map[]
    ensures d.satisfied <==> exists v :: v != "" && 2 * VotesFor(votes, v) > |votes|
  {
    hide Weight, Tallies, Resolves, MajorityThreshold;
    MajorityIsCompleteForWholeWeights(d, votes, options);
    if v :| v != "" && Weight(votes, options.weights, Some(v)) > d.totalWeight / 2.0 {
      UnweightedVotesAreCounted(votes, options.weights, v);
      assert 2 * VotesFor(votes, v) > |votes|;
    }
    if v :| v != "" && 2 * VotesFor(votes, v) > |votes| {
      UnweightedVotesAreCounted(votes, options.weights, v);
      assert Weight(votes, options.weights, Some(v)) > d.totalWeight / 2.0;
    }
  }
}
