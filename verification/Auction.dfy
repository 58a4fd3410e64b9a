/**
 What the auction comes to in costs, preferences and reliabilities (src/coord/contractNet.ts, lines 365-590, 687-742
 and 808-951).
 */
module Auction {
  import opened Outcomes
  import opened JsMaps
  import opened ContractNetSpec
  import opened ContractNetProofs
  import ContractNet
  import RealFacts

  // ---------------------------------------------------------------------------------------------
  // The score of a bid
  // ---------------------------------------------------------------------------------------------

  function BiasOf(call: Call, agentId: string): real {
    if agentId in call.heuristics.bias then call.heuristics.bias[agentId] else 0.0
  }

  function Prefer(call: Call, agentId: string): Call {
    call.(heuristics := call.heuristics.(prefer := call.heuristics.prefer + {agentId}))
  }

  /** The bias towards an agent grows by `d`. */
  function Lean(call: Call, agentId: string, d: real): Call {
    call.(heuristics := call.heuristics.(bias := call.heuristics.bias[agentId := BiasOf(call, agentId) + d]))
  }

  /** An idle agent that is neither preferred nor favoured is scored at its cost. */
  lemma PlainScoreIsCost(env: Env, busy: map<string, nat>, call: Call, bid: Bid)
    requires BusyOf(busy, bid.agentId) == 0
    requires bid.agentId !in call.heuristics.prefer && bid.agentId !in call.heuristics.bias
    ensures EffectiveCost(env, busy, call, bid) == bid.cost
  {
    hide Pressure;
    assert call.heuristics.busyPenalty * 0.0 * Pressure(env, call.bounds) == 0.0;
  }

  /**
   From there the score follows the cost up, and each assignment adds the penalty under the pressure of the bounds;
   joining the preferred agents takes the bonus off, a bias takes itself off, and neither touches other agents.
   */
  lemma ScoreMoves(env: Env, busy: map<string, nat>, call: Call, bid: Bid, other: string, d: real)
    ensures EffectiveCost(env, busy, call, bid.(cost := bid.cost + d)) == EffectiveCost(env, busy, call, bid) + d
    ensures EffectiveCost(env, busy[bid.agentId := BusyOf(busy, bid.agentId) + 1], call, bid)
         == EffectiveCost(env, busy, call, bid) + call.heuristics.busyPenalty * Pressure(env, call.bounds)
    ensures bid.agentId !in call.heuristics.prefer ==>
              EffectiveCost(env, busy, Prefer(call, bid.agentId), bid)
              == EffectiveCost(env, busy, call, bid) - call.heuristics.preferenceBonus
    ensures EffectiveCost(env, busy, Lean(call, bid.agentId, d), bid) == EffectiveCost(env, busy, call, bid) - d
    ensures other != bid.agentId ==>
              && EffectiveCost(env, busy, Prefer(call, other), bid) == EffectiveCost(env, busy, call, bid)
              && EffectiveCost(env, busy, Lean(call, other, d), bid) == EffectiveCost(env, busy, call, bid)
  {
    hide EffectiveCost, BiasOf;
    OneMoreBusy(env, busy, busy[bid.agentId := BusyOf(busy, bid.agentId) + 1], call, call, bid);
    CostMoves(env, busy, call, bid, d);
    PreferenceMoves(env, busy, call, bid, bid.agentId);
    LeaningMoves(env, busy, call, bid, bid.agentId, d);
    PreferenceMoves(env, busy, call, bid, other);
    LeaningMoves(env, busy, call, bid, other, d);
  }

  lemma CostMoves(env: Env, busy: map<string, nat>, call: Call, bid: Bid, d: real)
    ensures EffectiveCost(env, busy, call, bid.(cost := bid.cost + d)) == EffectiveCost(env, busy, call, bid) + d
  {
    hide Pressure, BusyOf;
  }

  lemma PreferenceMoves(env: Env, busy: map<string, nat>, call: Call, bid: Bid, agentId: string)
    ensures EffectiveCost(env, busy, Prefer(call, agentId), bid) ==
              EffectiveCost(env, busy, call, bid) -
              if agentId == bid.agentId && agentId !in call.heuristics.prefer then call.heuristics.preferenceBonus
              else 0.0
  {
    hide Pressure, BusyOf;
  }

  lemma LeaningMoves(env: Env, busy: map<string, nat>, call: Call, bid: Bid, agentId: string, d: real)
    ensures EffectiveCost(env, busy, Lean(call, agentId, d), bid) ==
              EffectiveCost(env, busy, call, bid) - if agentId == bid.agentId then d else 0.0
  {
    hide Pressure, BusyOf;
  }

  /**
   The pressure in numbers: 1 without bounds or while the ceiling is not above the minimum; one more than the share of
   the span up to a finite maximum that the ceiling covers, at most all of it; else one more than `log1p`.
   */
  lemma PressureInNumbers(env: Env, b: Bounds)
    ensures Pressure(env, None) == 1.0
    ensures b.ceiling <= b.min ==> Pressure(env, Some(b)) == 1.0
    ensures b.ceiling > b.min && b.max.Some? && b.max.value > b.min ==>
              var span := b.max.value - b.min;
              (Pressure(env, Some(b)) - 1.0) * span == if b.ceiling < b.max.value then b.ceiling - b.min else span
    ensures b.ceiling > b.min && (b.max.None? || b.max.value <= b.min) ==>
              Pressure(env, Some(b)) == 1.0 + env.log1p(b.ceiling - b.min)
  {
    if b.ceiling > b.min && b.max.Some? && b.max.value > b.min {
      var observed, span := b.ceiling - b.min, b.max.value - b.min;
      var ratio := observed / span;
      assert ratio * span == observed && (ratio - 1.0) * span == observed - span;
      RealFacts.SignOf(ratio - 1.0, span);
      RealFacts.SignOf(1.0 - ratio, span);
    }
  }

  // ---------------------------------------------------------------------------------------------
  // The award
  // ---------------------------------------------------------------------------------------------

  /** An open call, awarded to whoever is best. */
  ghost predicate UpForAward(env: Env, net: Net, callId: string) {
    && TotalOrder(env.before) && Inv(net)
    && callId in net.calls && net.calls[callId].status == Open && net.calls[callId].bids.keys != []
  }

  ghost function Winner(env: Env, net: Net, callId: string): string
    requires Inv(net)
  {
    match Award(env, net, callId, "").result
    case Ok(decision) => decision.agentId
    case Err(_) => ""
  }

  /** No score is lower than the winner's; equal scores go to the less busy, then to the earlier bid, then by name. */
  lemma LowestScoreWins(env: Env, net: Net, callId: string, k: string)
    requires UpForAward(env, net, callId) && k in net.calls[callId].bids.rows
    ensures var call, w := net.calls[callId], Winner(env, net, callId);
            && w in call.bids.rows && (k != w ==>
                 var mine, other := call.bids.rows[w], call.bids.rows[k];
                 var s, s' := EffectiveCost(env, net.busy, call, mine), EffectiveCost(env, net.busy, call, other);
                 var b, b' := BusyOf(net.busy, w), BusyOf(net.busy, k);
                 && s <= s'
                 && (s == s' ==> b <= b')
                 && (s == s' && b == b' ==> mine.submittedAt <= other.submittedAt)
                 && (s == s' && b == b' && mine.submittedAt == other.submittedAt ==> env.before(w, k)))
  {
    hide Award, EffectiveCost, Inv;
    InvParts(net);
    AwardPicksTheBest(env, net, callId);
  }

  /** Of two bids alike in cost, bias and assignments, one preferred and one not, the other one never wins. */
  lemma PreferredBeatsItsEqual(env: Env, net: Net, callId: string, a: string, b: string)
    requires UpForAward(env, net, callId)
    requires var call := net.calls[callId];
             && a in call.bids.rows && b in call.bids.rows && call.heuristics.preferenceBonus > 0.0
             && call.bids.rows[a].cost == call.bids.rows[b].cost
             && BiasOf(call, a) == BiasOf(call, b) && BusyOf(net.busy, a) == BusyOf(net.busy, b)
             && a !in call.heuristics.prefer && b in call.heuristics.prefer
    ensures Winner(env, net, callId) != a
  {
    hide Award, Pressure, Inv;
    InvParts(net);
    var call := net.calls[callId];
    LowestScoreWins(env, net, callId, b);
    assert EffectiveCost(env, net.busy, call, call.bids.rows[b])
        == EffectiveCost(env, net.busy, call, call.bids.rows[a]) - call.heuristics.preferenceBonus;
  }

  /** Of two bids alike but for the cost, the dearer one never wins. */
  lemma CheaperBeatsItsEqual(env: Env, net: Net, callId: string, a: string, b: string)
    requires UpForAward(env, net, callId)
    requires var call := net.calls[callId];
             && a in call.bids.rows && b in call.bids.rows
             && call.bids.rows[a].cost > call.bids.rows[b].cost
             && BiasOf(call, a) == BiasOf(call, b) && BusyOf(net.busy, a) == BusyOf(net.busy, b)
             && (a in call.heuristics.prefer <==> b in call.heuristics.prefer)
    ensures Winner(env, net, callId) != a
  {
    hide Award, Pressure, Inv;
    InvParts(net);
    LowestScoreWins(env, net, callId, b);
  }

  /** With nobody busy, preferred or favoured, the winner has the lowest cost. */
  lemma LowestCostWins(env: Env, net: Net, callId: string, k: string)
    requires UpForAward(env, net, callId)
    requires k in net.calls[callId].bids.rows && forall a :: BusyOf(net.busy, a) == 0
    requires net.calls[callId].heuristics.prefer == {} && net.calls[callId].heuristics.bias == map[]
    ensures var rows := net.calls[callId].bids.rows;
            Winner(env, net, callId) in rows && rows[Winner(env, net, callId)].cost <= rows[k].cost
  {
    hide Award, EffectiveCost, Inv;
    InvParts(net);
    var call := net.calls[callId];
    LowestScoreWins(env, net, callId, k);
    PlainScoreIsCost(env, net.busy, call, call.bids.rows[k]);
    PlainScoreIsCost(env, net.busy, call, call.bids.rows[Winner(env, net, callId)]);
  }

  /** Lowering the score of the winner and of nobody else leaves it the winner. */
  lemma FavouredWinnerStays(env: Env, busy: map<string, nat>, call: Call, call': Call, keys: seq<string>)
    requires TotalOrder(env.before) && CallInv(call) && CallInv(call') && call'.bids == call.bids
    requires keys != [] && forall k :: k in keys ==> k in call.bids.rows
    requires var w := Best(env, busy, call, keys);
             && EffectiveCost(env, busy, call', call.bids.rows[w]) <= EffectiveCost(env, busy, call, call.bids.rows[w])
             && forall k :: k in keys && k != w ==>
                  var bid := call.bids.rows[k];
                  EffectiveCost(env, busy, call', bid) == EffectiveCost(env, busy, call, bid)
    ensures Best(env, busy, call', keys) == Best(env, busy, call, keys)
  {
    hide EffectiveCost;
    BestBeatsAll(env, busy, call, keys);
    BestBeatsAll(env, busy, call', keys);
  }

  /** A winner goes on winning once it is preferred, or once the bias towards it has grown. */
  lemma PreferredWinnerStays(env: Env, net: Net, callId: string, d: real)
    requires UpForAward(env, net, callId) && d >= 0.0
    ensures var call, w := net.calls[callId], Winner(env, net, callId);
            var preferred, favoured := SetCall(net, Prefer(call, w)), SetCall(net, Lean(call, w, d));
            && Inv(preferred) && Winner(env, preferred, callId) == w
            && Inv(favoured) && Winner(env, favoured, callId) == w
  {
    hide Award, EffectiveCost, Inv, Best;
    InvParts(net);
    var call, w := net.calls[callId], Winner(env, net, callId);
    var p, q := Prefer(call, w), Lean(call, w, d);
    WinnerIsBest(env, net, callId);
    HeuristicsKeepInv(net, p);
    HeuristicsKeepInv(net, q);
    WinnerIsBest(env, SetCall(net, p), callId);
    WinnerIsBest(env, SetCall(net, q), callId);
    forall k | k in call.bids.rows
      ensures
        var bid := call.bids.rows[k];
        var s := EffectiveCost(env, net.busy, call, bid);
        var s', s'' := EffectiveCost(env, net.busy, p, bid), EffectiveCost(env, net.busy, q, bid);
        if k == w then s' <= s && s'' <= s else s' == s && s'' == s
    {
      ScoreMoves(env, net.busy, call, call.bids.rows[k], w, d);
      if w in call.heuristics.prefer {
        assert call.heuristics.prefer + {w} == call.heuristics.prefer;
        assert p == call;
      }
    }
    FavouredWinnerStays(env, net.busy, call, p, call.bids.keys);
    FavouredWinnerStays(env, net.busy, call, q, call.bids.keys);
  }

  lemma WinnerIsBest(env: Env, net: Net, callId: string)
    requires UpForAward(env, net, callId)
    ensures var call := net.calls[callId];
            && (forall k :: k in call.bids.keys ==> k in call.bids.rows)
            && Winner(env, net, callId) == Best(env, net.busy, call, call.bids.keys)
  {
    hide Award, Best, EffectiveCost;
    AwardTakesBest(env, net, callId);
  }

  /** Other heuristics leave a call as consistent as it was. */
  lemma HeuristicsKeepInv(net: Net, call: Call)
    requires Inv(net) && call.callId in net.calls && net.calls[call.callId].status == Open
    requires call == net.calls[call.callId].(heuristics := call.heuristics)
    requires call.heuristics.busyPenalty >= 0.0 && call.heuristics.preferenceBonus >= 0.0
    ensures Inv(SetCall(net, call))
  {
    SetOpenCallKeepsInv(net, call);
  }

  /**
   The whole effect of an award: one call is awarded to the bid of the winner, one agent has one more assignment, one
   event goes out, and the decision shows the bid and the time. A preferred agent wins if it has a bid.
   */
  lemma AwardInNumbers(env: Env, net: Net, callId: string, preferred: string)
    requires Inv(net) && callId in net.calls && net.calls[callId].status == Open
    ensures var call, o := net.calls[callId], Award(env, net, callId, preferred);
            && (o.result.Ok? <==> if preferred == "" then call.bids.keys != [] else preferred in call.bids.rows)
            && (o.result.Err? ==> o.net == net)
            && (o.result.Ok? ==>
                  var d, now := o.result.value, env.clock(net.ticks);
                  && d.agentId in call.bids.rows && (preferred != "" ==> d.agentId == preferred)
                  && d.cost == call.bids.rows[d.agentId].cost && d.callId == callId && d.awardedAt == now
                  && d.bids == call.bids.rows
                  && o.net.calls == net.calls[callId :=
                       call.(status := Awarded, awarded := Some(call.bids.rows[d.agentId]), awardedAt := Some(now))]
                  && (forall a :: BusyOf(o.net.busy, a) == BusyOf(net.busy, a) + if a == d.agentId then 1 else 0)
                  && o.net.agents == net.agents
                  && |o.net.log| == |net.log| + 1 && o.net.log[..|net.log|] == net.log
                  && o.net.log[|net.log|].CallAwarded? && o.net.log[|net.log|].decision == d
                  && o.net.log[|net.log|].at == now)
  {
    hide EffectiveCost, Inv;
    InvParts(net);
  }

  // ---------------------------------------------------------------------------------------------
  // Offers
  // ---------------------------------------------------------------------------------------------

  /** A registered agent offers its base cost over its reliability. */
  lemma OfferedCost(agent: Agent)
    requires agent.baseCost > 0.0 && 0.1 <= agent.reliability <= 1.0
    ensures HeuristicCost(agent) * agent.reliability == agent.baseCost
    ensures HeuristicCost(agent) >= agent.baseCost
    ensures agent.reliability == 1.0 ==> HeuristicCost(agent) == agent.baseCost
  {
    RealFacts.QuotientIsPositive(agent.baseCost, agent.reliability);
    var cost := agent.baseCost / agent.reliability;
    assert cost * agent.reliability == agent.baseCost;
    RealFacts.SignOfProduct(cost, 1.0 - agent.reliability);
  }

  /** What `agent` bids on its own account, for `reason` and under `bounds`. */
  predicate Offer(env: Env, bid: Bid, agent: Agent, reason: string, bounds: Option<Bounds>) {
    && bid.agentId == agent.agentId && bid.kind == Heuristic
    && bid.cost * agent.reliability == agent.baseCost
    && bid.metadata == Derived(reason, Pressure(env, bounds))
  }

  /** A better reliability never makes an offer dearer. */
  lemma ReliableOffersNoMore(env: Env, a: Agent, b: Agent, bidA: Bid, bidB: Bid, reason: string, bounds: Option<Bounds>)
    requires Offer(env, bidA, a, reason, bounds) && Offer(env, bidB, b, reason, bounds)
    requires a.baseCost == b.baseCost && b.baseCost > 0.0 && 0.0 < b.reliability <= a.reliability
    ensures bidA.cost <= bidB.cost
    ensures a.reliability == 1.0 ==> bidA.cost == a.baseCost
  {
    var x, y, p, q := bidA.cost, bidB.cost, a.reliability, b.reliability;
    RealFacts.SignOf(y, q);
    RealFacts.SignOfProduct(y, p - q);
    assert (y - x) * p == y * (p - q);
    RealFacts.SignOf(y - x, p);
  }

  /**
   Announcing with automatic bids brings in exactly one offer of each registered agent; without, no bid at all. The
   call is as announced, the agents, their assignments and all other calls stay, and the snapshot tells.
   */
  lemma AnnounceInNumbers(env: Env, net: Net, a: Announcement, penalty: real, id: string)
    requires Inv(net) && a.callId !in net.calls && !BlankTask(a.taskId)
    ensures var o := Announce(env, net, a, penalty);
            && a.callId in o.net.calls && o.result.Ok?
            && var call, r := o.net.calls[a.callId], o.result.value;
            && (call.bids.Has(id) <==> a.autoBid && net.agents.Has(id))
            && (call.bids.Has(id) ==> Offer(env, call.bids.rows[id], net.agents.rows[id], "auto", a.bounds))
            && call.status == Open && call.taskId == a.taskId && call.bounds == a.bounds && call.autoBid == a.autoBid
            && call.announcedAt == env.clock(net.ticks)
            && (id in call.refresh.agents <==> call.bids.Has(id))
            && r.callId == a.callId && r.taskId == a.taskId && r.announcedAt == call.announcedAt
            && r.bids == call.bids.rows && r.heuristics == call.heuristics
            && o.net.agents == net.agents && o.net.busy == net.busy
            && forall other :: other in net.calls ==> other in o.net.calls && o.net.calls[other] == net.calls[other]
  {
    hide Pressure, HeuristicCost, RefreshBids, NormaliseHeuristics, BlankTask, Inv, Offer;
    InvParts(net);
    if a.autoBid {
      var posted := SetCall(Tick(net), NewCall(env, net, a, penalty));
      FirstOffers(env, posted, a.callId, id) by { AgentsAreSound(net); }
      ContractNet.RefreshKeepsOthers(env, posted, a.callId, posted.agents.keys, "auto", true);
    }
  }

  lemma FirstOffers(env: Env, net: Net, callId: string, id: string)
    requires NetShape(net) && net.agents.Valid() && callId in net.calls && net.calls[callId].bids == Empty()
    requires net.agents.Has(id) ==>
               net.agents.rows[id].baseCost > 0.0 && 0.1 <= net.agents.rows[id].reliability <= 1.0
    ensures var before, after := net.calls[callId],
              RefreshBids(env, net, callId, net.agents.keys, "auto", true).calls[callId];
            && (after.bids.Has(id) <==> net.agents.Has(id))
            && (after.bids.Has(id) ==> Offer(env, after.bids.rows[id], net.agents.rows[id], "auto", before.bounds))
  {
    hide Pressure, HeuristicCost, RefreshBids;
    RefreshOffers(env, net, callId, net.agents.keys, "auto", true, id);
    if net.agents.Has(id) {
      OfferedCost(net.agents.rows[id]);
    }
  }

  lemma AgentsAreSound(net: Net)
    requires Inv(net)
    ensures net.agents.Valid() && NetShape(net)
    ensures forall id :: id in net.agents.rows ==>
              net.agents.rows[id].baseCost > 0.0 && 0.1 <= net.agents.rows[id].reliability <= 1.0
  {
  }

  /** The weights of a call are those announced; a penalty left out is the coordinator's, a bonus left out is one. */
  lemma HeuristicsInNumbers(h: HeuristicsInput, penalty: real)
    ensures var n := NormaliseHeuristics(h, penalty);
            && n.prefer == h.prefer && n.bias == h.bias
            && n.busyPenalty >= 0.0 && n.preferenceBonus >= 0.0
            && (h.busyPenalty.Some? && h.busyPenalty.value >= 0.0 ==> n.busyPenalty == h.busyPenalty.value)
            && (h.busyPenalty.Some? && h.busyPenalty.value < 0.0 ==> n.busyPenalty == 0.0)
            && (h.busyPenalty.None? && penalty >= 0.0 ==> n.busyPenalty == penalty)
            && (h.preferenceBonus.Some? && h.preferenceBonus.value >= 0.0 ==>
                  n.preferenceBonus == h.preferenceBonus.value)
            && (h.preferenceBonus.None? ==> n.preferenceBonus == 1.0)
  {
  }

  /** After a bounds update each refreshed agent stands with an offer under the new bounds, all others as before. */
  lemma BoundsUpdateOffers(
    env: Env, net: Net, callId: string, bounds: Option<Bounds>, refreshAutoBids: bool, includeNew: bool, a: string)
    requires Inv(net) && callId in net.calls && net.calls[callId].status == Open
    ensures var before := net.calls[callId];
            var after := UpdateBounds(env, net, callId, bounds, refreshAutoBids, includeNew).net.calls[callId];
            if before.autoBid && refreshAutoBids && net.agents.Has(a)
               && (if before.bids.Has(a) then before.bids.rows[a].kind == Heuristic else includeNew)
            then
              && a in after.refresh.agents && after.bids.Has(a)
              && Offer(env, after.bids.rows[a], net.agents.rows[a], "auto_refresh", bounds)
            else a !in after.refresh.agents && after.bids.Get(a) == before.bids.Get(a)
  {
    hide Pressure, UpdateBounds, Inv, Refreshable;
    AgentsAreSound(net);
    BoundsUpdateTakesEffect(env, net, callId, bounds, refreshAutoBids, includeNew, a);
    BoundsUpdateBids(env, net, callId, bounds, refreshAutoBids, includeNew, a);
    assert Refreshable(net.calls[callId], a, includeNew) <==>
      (if net.calls[callId].bids.Has(a) then net.calls[callId].bids.rows[a].kind == Heuristic else includeNew) by {
      WhoIsRefreshable(net.calls[callId], a, includeNew);
    }
    if net.agents.Has(a) {
      OfferedCost(net.agents.rows[a]);
    }
  }

  lemma WhoIsRefreshable(call: Call, a: string, includeNew: bool)
    ensures Refreshable(call, a, includeNew) <==>
              if call.bids.Has(a) then call.bids.rows[a].kind == Heuristic else includeNew
  {
  }

  lemma BoundsUpdateBids(
    env: Env, net: Net, callId: string, bounds: Option<Bounds>, refreshAutoBids: bool, includeNew: bool, a: string)
    requires Inv(net) && callId in net.calls && net.calls[callId].status == Open
    ensures var after := UpdateBounds(env, net, callId, bounds, refreshAutoBids, includeNew).net.calls[callId];
            a in after.refresh.agents ==>
              && net.agents.Has(a) && after.bids.Has(a)
              && var bid := after.bids.rows[a];
                 bid.agentId == a && bid.kind == Heuristic && bid.cost == HeuristicCost(net.agents.rows[a])
  {
    hide Pressure, HeuristicCost, RefreshBids, Inv, Refreshable;
    InvParts(net);
    var bounded := SetCall(net, net.calls[callId].(bounds := bounds));
    if bounded.calls[callId].autoBid && refreshAutoBids {
      RefreshOffers(env, bounded, callId, bounded.agents.keys, "auto_refresh", includeNew, a);
    }
  }

  /**
   A profile in numbers: what is given counts, a base cost that is not positive as 100, a reliability that is not
   positive as a half, and otherwise within a tenth and one; what is left out stays, or starts as 100 and 1.
   */
  lemma RegisterInNumbers(env: Env, net: Net, agentId: string, options: AgentOptions)
    requires Inv(net)
    ensures var o := RegisterAgent(env, net, agentId, options);
            && o.net.agents.Has(agentId)
            && var agent, before := o.net.agents.rows[agentId], net.agents.Get(agentId);
            && agent.agentId == agentId
            && (options.baseCost.Some? && options.baseCost.value > 0.0 ==> agent.baseCost == options.baseCost.value)
            && (options.baseCost.Some? && options.baseCost.value <= 0.0 ==> agent.baseCost == 100.0)
            && (options.baseCost.None? ==> agent.baseCost == if before.Some? then before.value.baseCost else 100.0)
            && (options.reliability.Some? ==>
                  var given := options.reliability.value;
                  && (0.1 <= given <= 1.0 ==> agent.reliability == given)
                  && (given > 1.0 ==> agent.reliability == 1.0)
                  && (0.0 < given < 0.1 ==> agent.reliability == 0.1)
                  && (given <= 0.0 ==> agent.reliability == 0.5))
            && (options.reliability.None? ==>
                  agent.reliability == if before.Some? then before.value.reliability else 1.0)
            && agent.profile == options.profile.GetOr(if before.Some? then before.value.profile else "")
            && agent.registeredAt == (if before.Some? then before.value.registeredAt else env.clock(net.ticks))
            && (forall other :: other != agentId ==> o.net.agents.Get(other) == net.agents.Get(other))
            && (forall a :: BusyOf(o.net.busy, a) == BusyOf(net.busy, a)) && o.net.calls == net.calls
  {
    hide Inv;
    AgentsAreSound(net);
  }

  // ---------------------------------------------------------------------------------------------
  // The other steps of a call
  // ---------------------------------------------------------------------------------------------

  /** A task of blanks is refused, one with something to see is announced. */
  lemma TaskMustShow(env: Env, net: Net, a: Announcement, penalty: real)
    requires Inv(net)
    ensures (forall k :: 0 <= k < |a.taskId| ==> a.taskId[k] in [' ', '\t', '\n', '\r']) ==>
              Announce(env, net, a, penalty) == Outcome(net, Err(EmptyTask))
    ensures (exists k :: 0 <= k < |a.taskId| && a.taskId[k] > ' ') ==> Announce(env, net, a, penalty).result.Ok?
  {
    hide Inv, NewCall, RefreshCall, Snapshot;
    InvParts(net);
    if k :| 0 <= k < |a.taskId| && a.taskId[k] > ' ' {
      assert !BlankTask(a.taskId);
    }
  }

  /** A bid is refused, in this order, on an unknown call, a closed one, by an unknown agent, below nothing. */
  lemma BidInNumbers(env: Env, net: Net, callId: string, agentId: string, cost: real, data: string)
    requires Inv(net)
    ensures var o := PlaceBid(env, net, callId, agentId, cost, data);
            && (o.result.Err? ==> o.net == net)
            && (callId !in net.calls ==> o.result == Err(UnknownCall))
            && (callId in net.calls && net.calls[callId].status != Open ==> o.result == Err(NotOpen))
            && (callId in net.calls && net.calls[callId].status == Open ==>
                  && (!net.agents.Has(agentId) ==> o.result == Err(UnknownAgent))
                  && (net.agents.Has(agentId) && cost < 0.0 ==> o.result == Err(BadCost))
                  && (net.agents.Has(agentId) && cost >= 0.0 ==>
                        && o.result.Ok? && callId in o.net.calls
                        && o.net.calls[callId].bids.Get(agentId)
                           == Some(Bid(agentId, cost, env.clock(net.ticks), Supplied(data), Manual))
                        && (forall a :: a != agentId ==>
                              o.net.calls[callId].bids.Get(a) == net.calls[callId].bids.Get(a))
                        && o.net.calls[callId].status == Open && o.net.busy == net.busy
                        && forall id :: id in net.calls && id != callId ==>
                             id in o.net.calls && o.net.calls[id] == net.calls[id]))
  {
    hide Inv, Snapshot;
    InvParts(net);
  }

  /** Completing an awarded call closes it and takes one assignment off its agent; completing it again does nothing. */
  lemma CompletionInNumbers(env: Env, net: Net, callId: string)
    requires Inv(net)
    ensures var o := Complete(env, net, callId);
            && (callId !in net.calls ==> o.result == Err(UnknownCall) && o.net == net)
            && (callId in net.calls && net.calls[callId].status == Open ==>
                  o.result == Err(NotAwarded) && o.net == net)
            && (callId in net.calls && net.calls[callId].status == Completed ==> o.result.Ok? && o.net == net)
            && (callId in net.calls && net.calls[callId].status == Awarded ==>
                  && o.result.Ok? && o.net.calls == net.calls[callId := net.calls[callId].(status := Completed)]
                  && net.calls[callId].awarded.Some?
                  && var agentId := net.calls[callId].awarded.value.agentId;
                     forall a :: BusyOf(o.net.busy, a) == BusyOf(net.busy, a) - if a == agentId then 1 else 0)
  {
    if callId in net.calls && net.calls[callId].status == Awarded {
      ClampNeverBites(env, net, callId);
    }
    hide Inv, Snapshot;
    InvParts(net);
  }
}
