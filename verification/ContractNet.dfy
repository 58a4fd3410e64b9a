/**
 The coordinator class (src/coord/contractNet.ts, lines 316-800). Its methods update the maps in place and are
 proved to take the steps of `ContractNetSpec`; `log` is what an observer has received.
 */
module ContractNet {
  import opened Outcomes
  import opened JsMaps
  import opened ContractNetSpec
  import OpenCalls

  class ContractNetCoordinator {
    const env: Env
    const defaultBusyPenalty: real
    var agents: JsMap<Agent>
    var activeAssignments: map<string, nat>
    var calls: map<string, Call>
    var ticks: nat
    var log: seq<Event>

    constructor (env: Env, defaultBusyPenalty: Option<real>)
      ensures this.env == env && this.defaultBusyPenalty == Max(0.0, defaultBusyPenalty.GetOr(1.0))
      ensures Abs() == START && Valid()
    {
      this.env := env;
      this.defaultBusyPenalty := Max(0.0, defaultBusyPenalty.GetOr(1.0));
      agents, activeAssignments, calls, ticks, log := Empty(), map[], map[], 0, [];
    }

    function Abs(): Net
      reads this
    {
      Net(agents, activeAssignments, calls, ticks, log)
    }

    ghost predicate Valid()
      reads this
    {
      NetShape(Abs()) && agents.Valid() && forall id :: id in calls ==> calls[id].bids.Valid()
    }

    method Now() returns (t: int)
      modifies this`ticks
      ensures t == env.clock(old(ticks)) && Abs() == Tick(old(Abs()))
    {
      t := env.clock(ticks);
      ticks := ticks + 1;
    }

    method EmitEvent(event: Event)
      modifies this`log
      ensures Abs() == Emit(old(Abs()), event)
    {
      log := log + [event];
    }

    method RegisterAgent(agentId: string, options: AgentOptions) returns (snapshot: AgentSnapshot)
      requires Valid()
      modifies this
      ensures Valid()
      ensures Outcome(Abs(), Ok(snapshot)) == ContractNetSpec.RegisterAgent(env, old(Abs()), agentId, options)
    {
      hide MergeProfile, BusyOf, JsMap.Valid;
      var existing := agents.Get(agentId);
      var agent := BuildProfile(existing, agentId, options);
      agents := agents.Put(agentId, agent);
      if agentId !in activeAssignments {
        activeAssignments := activeAssignments[agentId := 0];
      }
      snapshot := AgentSnapshot(agent, BusyOf(activeAssignments, agentId));
      var at := Now();
      EmitEvent(AgentRegistered(at, snapshot, existing.Some?));
    }

    /** A newcomer is stamped with the current time, a known agent keeps its stamp. */
    method BuildProfile(existing: Option<Agent>, agentId: string, options: AgentOptions) returns (agent: Agent)
      modifies this`ticks
      ensures agent == MergeProfile(existing, agentId, options,
                         if existing.Some? then existing.value.registeredAt else env.clock(old(ticks)))
      ensures ticks == if existing.Some? then old(ticks) else old(ticks) + 1
    {
      var registeredAt;
      if existing.Some? {
        registeredAt := existing.value.registeredAt;
      } else {
        registeredAt := Now();
      }
      agent := MergeProfile(existing, agentId, options, registeredAt);
    }

    method UnregisterAgent(agentId: string) returns (existed: bool)
      requires Valid()
      modifies this
      ensures Valid()
      ensures Outcome(Abs(), Ok(existed)) == ContractNetSpec.UnregisterAgent(env, old(Abs()), agentId)
    {
      existed := agents.Has(agentId);
      if !existed {
        return;
      }
      agents := agents.Delete(agentId);
      var at := Now();
      EmitEvent(AgentUnregistered(at, agentId, BusyOf(activeAssignments, agentId)));
    }

    /** `a.callId` is the task identifier and a fresh random identifier: no call has it yet. */
    method Announce(a: Announcement) returns (r: Result<CallSnapshot, NetError>)
      requires Valid() && a.callId !in calls
      modifies this
      ensures Valid()
      ensures Outcome(Abs(), r) == ContractNetSpec.Announce(env, old(Abs()), a, defaultBusyPenalty)
    {
      hide ContractNetSpec.RefreshCall, NormaliseHeuristics, Snapshot, BlankTask;
      if BlankTask(a.taskId) {
        return Err(EmptyTask);
      }
      var announcedAt := Now();
      var call := Call(a.callId, a.taskId, NormaliseHeuristics(a.heuristics, defaultBusyPenalty), a.bounds, a.autoBid,
        Open, announcedAt, None, None, Empty(), Refresh(false, true, false, {}));
      calls := calls[a.callId := call];
      if call.autoBid {
        RefreshCall(a.callId, true, "auto", true);
      }
      var snapshot := Snapshot(calls[a.callId]);
      EmitEvent(CallAnnounced(announcedAt, snapshot));
      return Ok(snapshot);
    }

    /** The open calls, sorted by announcement and then by identifier. */
    method ListOpenCalls() returns (ids: seq<string>)
      requires TotalOrder(env.before)
      ensures OpenCalls.Listed(env, Abs(), ids) && ids == OpenCalls.ListOpenCalls(env, Abs())
    {
      hide TotalOrder, OpenCalls.ListOpenCalls;
      ids := [];
      var left := OpenCalls.OpenIds(Abs());
      while left != {}
        invariant left <= OpenCalls.OpenIds(Abs())
        invariant OpenCalls.Sorted(env, calls, ids)
        invariant forall id :: id in ids <==> id in OpenCalls.OpenIds(Abs()) && id !in left
        decreases |left|
      {
        var id :| id in left;
        OpenCalls.InsertSorts(env, calls, ids, id);
        OpenCalls.InsertKeeps(env, calls, ids, id);
        ids := OpenCalls.Insert(env, calls, ids, id);
        left := left - {id};
      }
      OpenCalls.SortedIsDistinct(env, calls, ids);
      OpenCalls.ListingIsTheSorting(env, Abs(), ids);
    }

    /** Refreshes the heuristic bids of a call and records the refresh on it. */
    method RefreshCall(callId: string, requested: bool, reason: string, includeNewAgents: bool)
      requires Valid() && callId in calls
      modifies this
      ensures Valid() && callId in calls
      ensures Abs() == ContractNetSpec.RefreshCall(env, old(Abs()), callId, requested, reason, includeNewAgents)
    {
      hide RefreshBids, Refreshed;
      var refreshed := {};
      if requested {
        refreshed := RefreshHeuristicBids(callId, reason, includeNewAgents);
      }
      var refresh := Refresh(requested, includeNewAgents, requested && refreshed != {}, refreshed);
      calls := calls[callId := calls[callId].(refresh := refresh)];
    }

    method PlaceBid(callId: string, agentId: string, cost: real, data: string)
      returns (r: Result<CallSnapshot, NetError>)
      requires Valid()
      modifies this
      ensures Valid()
      ensures Outcome(Abs(), r) == ContractNetSpec.PlaceBid(env, old(Abs()), callId, agentId, cost, data)
    {
      if callId !in calls {
        return Err(UnknownCall);
      }
      if calls[callId].status != Open {
        return Err(NotOpen);
      }
      if !agents.Has(agentId) {
        return Err(UnknownAgent);
      }
      if cost < 0.0 {
        return Err(BadCost);
      }
      RecordBid(callId, agentId, cost, Supplied(data), Manual);
      return Ok(Snapshot(calls[callId]));
    }

    method UpdateCallPheromoneBounds(callId: string, bounds: Option<Bounds>, refreshAutoBids: bool,
      includeNewAgents: bool)
      returns (r: Result<CallSnapshot, NetError>)
      requires Valid()
      modifies this
      ensures Valid()
      ensures Outcome(Abs(), r) == UpdateBounds(env, old(Abs()), callId, bounds, refreshAutoBids, includeNewAgents)
    {
      hide ContractNetSpec.RefreshCall, Snapshot;
      if callId !in calls {
        return Err(UnknownCall);
      }
      if calls[callId].status != Open {
        return Err(NotOpen);
      }
      calls := calls[callId := calls[callId].(bounds := bounds)];
      RefreshCall(callId, calls[callId].autoBid && refreshAutoBids, "auto_refresh", includeNewAgents);
      var snapshot := Snapshot(calls[callId]);
      var emittedAt := Now();
      EmitEvent(BoundsUpdated(emittedAt, snapshot, snapshot.bounds, calls[callId].refresh));
      return Ok(snapshot);
    }

    method Award(callId: string, preferredAgentId: string) returns (r: Result<Decision, NetError>)
      requires Valid()
      modifies this
      ensures Valid()
      ensures Outcome(Abs(), r) == ContractNetSpec.Award(env, old(Abs()), callId, preferredAgentId)
    {
      hide EffectiveCost, Best, ContractNetSpec.Grant;
      if callId !in calls {
        return Err(UnknownCall);
      }
      var call := calls[callId];
      if call.status == Completed {
        if call.awarded.None? {
          return Err(NotAwarded);
        }
        var standing := BuildDecision(call, call.awarded.value);
        return Ok(standing);
      }
      if call.awarded.Some? {
        if preferredAgentId != "" && call.awarded.value.agentId != preferredAgentId {
          return Err(AlreadyAwarded);
        }
        var standing := BuildDecision(call, call.awarded.value);
        return Ok(standing);
      }
      var bid: Bid;
      if preferredAgentId != "" {
        if !call.bids.Has(preferredAgentId) {
          return Err(NoSuchBid);
        }
        bid := call.bids.rows[preferredAgentId];
      } else {
        if call.bids.keys == [] {
          return Err(NoBids);
        }
        bid := SelectBestBid(call);
      }
      var decision := Grant(call, bid);
      return Ok(decision);
    }

    /** The second half of `award`, for an open call. */
    method Grant(open: Call, bid: Bid) returns (decision: Decision)
      requires Valid() && open.callId in calls && open.bids.Valid()
      modifies this
      ensures Valid()
      ensures Outcome(Abs(), Ok(decision)) == ContractNetSpec.Grant(env, old(Abs()), open, bid)
    {
      hide EffectiveCost;
      var awardedAt := Now();
      var call := open.(awarded := Some(bid), status := Awarded, awardedAt := Some(awardedAt));
      calls := calls[call.callId := call];
      IncrementAssignments(bid.agentId);
      decision := BuildDecision(call, bid);
      EmitEvent(CallAwarded(awardedAt, Snapshot(call), decision));
    }

    method Complete(callId: string) returns (r: Result<CallSnapshot, NetError>)
      requires Valid()
      modifies this
      ensures Valid()
      ensures Outcome(Abs(), r) == ContractNetSpec.Complete(env, old(Abs()), callId)
    {
      if callId !in calls {
        return Err(UnknownCall);
      }
      var call := calls[callId];
      if call.awarded.None? {
        return Err(NotAwarded);
      }
      if call.status == Completed {
        return Ok(Snapshot(call));
      }
      call := call.(status := Completed);
      calls := calls[callId := call];
      DecrementAssignments(call.awarded.value.agentId);
      var snapshot := Snapshot(call);
      var at := Now();
      EmitEvent(CallCompleted(at, snapshot));
      return Ok(snapshot);
    }

    method RecordBid(callId: string, agentId: string, cost: real, metadata: Metadata, kind: BidKind)
      requires Valid() && callId in calls
      modifies this
      ensures Valid()
      ensures Abs() == ContractNetSpec.RecordBid(env, old(Abs()), callId, agentId, cost, metadata, kind)
    {
      var call := calls[callId];
      var previous := call.bids.Get(agentId);
      var submittedAt := Now();
      var bid := Bid(agentId, cost, submittedAt, metadata, kind);
      calls := calls[callId := call.(bids := call.bids.Put(agentId, bid))];
      var previousKind := if previous.Some? then Some(previous.value.kind) else None;
      EmitEvent(BidRecorded(submittedAt, callId, agentId, bid, previousKind));
    }

    /** The running winner over the bid map, in its iteration order. */
    method SelectBestBid(call: Call) returns (winner: Bid)
      requires call.bids.Valid() && call.bids.keys != []
      ensures winner == call.bids.rows[Best(env, activeAssignments, call, call.bids.keys)]
    {
      hide EffectiveCost, Beats;
      var keys := call.bids.keys;
      winner := call.bids.rows[keys[0]];
      var winnerScore := EffectiveCost(env, activeAssignments, call, winner);
      assert keys[..1] == [keys[0]];
      for n := 1 to |keys|
        invariant winner == call.bids.rows[Best(env, activeAssignments, call, keys[..n])]
        invariant winnerScore == EffectiveCost(env, activeAssignments, call, winner)
      {
        var bid := call.bids.rows[keys[n]];
        var score := EffectiveCost(env, activeAssignments, call, bid);
        assert keys[..n + 1][..n] == keys[..n];
        var tie := BreakTie(call, bid, winner);
        BeatsByCost(env, activeAssignments, call, bid, winner);
        if score < winnerScore || (score == winnerScore && tie) {
          winner, winnerScore := bid, score;
        }
      }
      assert keys[..|keys|] == keys;
    }

    method BreakTie(call: Call, challenger: Bid, incumbent: Bid) returns (wins: bool)
      ensures
        EffectiveCost(env, activeAssignments, call, challenger) ==
        EffectiveCost(env, activeAssignments, call, incumbent) ==>
                wins == Beats(env, activeAssignments, call, challenger, incumbent)
    {
      hide EffectiveCost;
      var incumbentBusy := BusyOf(activeAssignments, incumbent.agentId);
      var challengerBusy := BusyOf(activeAssignments, challenger.agentId);
      if challengerBusy < incumbentBusy {
        return true;
      }
      if challengerBusy > incumbentBusy {
        return false;
      }
      if challenger.submittedAt < incumbent.submittedAt {
        return true;
      }
      if challenger.submittedAt > incumbent.submittedAt {
        return false;
      }
      return env.before(challenger.agentId, incumbent.agentId);
    }

    method IncrementAssignments(agentId: string)
      modifies this`activeAssignments
      ensures activeAssignments == old(activeAssignments)[agentId := BusyOf(old(activeAssignments), agentId) + 1]
    {
      var current := BusyOf(activeAssignments, agentId);
      activeAssignments := activeAssignments[agentId := current + 1];
    }

    method DecrementAssignments(agentId: string)
      modifies this`activeAssignments
      ensures var current := BusyOf(old(activeAssignments), agentId);
              activeAssignments == old(activeAssignments)[agentId := if current == 0 then 0 else current - 1]
    {
      var current := BusyOf(activeAssignments, agentId);
      activeAssignments := activeAssignments[agentId := if current == 0 then 0 else current - 1];
    }

    /** A call without an award time would be stamped with the current one. */
    method BuildDecision(call: Call, bid: Bid) returns (decision: Decision)
      modifies this`ticks
      ensures ticks == if call.awardedAt.Some? then old(ticks) else old(ticks) + 1
      ensures decision == Decide(env, activeAssignments, call, bid, env.clock(old(ticks)))
    {
      var effectiveCost := EffectiveCost(env, activeAssignments, call, bid);
      var awardedAt;
      if call.awardedAt.Some? {
        awardedAt := call.awardedAt.value;
      } else {
        awardedAt := Now();
      }
      decision := Decision(call.callId, bid.agentId, bid.cost, effectiveCost, awardedAt, call.bids.rows);
    }

    method RefreshHeuristicBids(callId: string, reason: string, includeNewAgents: bool) returns (refreshed: set<string>)
      requires Valid() && callId in calls
      modifies this
      ensures Valid()
      ensures agents == old(agents) && callId in calls
      ensures Abs() == RefreshBids(env, old(Abs()), callId, agents.keys, reason, includeNewAgents)
      ensures refreshed == Refreshed(old(Abs()), callId, includeNewAgents)
    {
      hide Pressure, HeuristicCost, RefreshBids, ContractNetSpec.RecordBid;
      ghost var net := Abs();
      var pressure := Pressure(env, calls[callId].bounds);
      var ids := agents.keys;
      refreshed := {};
      RefreshNobody(env, net, callId, reason, includeNewAgents);
      for n := 0 to |ids|
        invariant Valid() && callId in calls && agents == net.agents
        invariant Abs() == RefreshBids(env, net, callId, ids[..n], reason, includeNewAgents)
        invariant refreshed == set id | id in ids[..n] && Refreshable(net.calls[callId], id, includeNewAgents)
      {
        var id := ids[n];
        RefreshNext(env, net, callId, ids, n, reason, includeNewAgents);
        var existing := calls[callId].bids.Get(id);
        if existing.Some? && existing.value.kind == Manual {
          continue;
        }
        if existing.None? && !includeNewAgents {
          continue;
        }
        RecordBid(callId, id, HeuristicCost(agents.rows[id]), Derived(reason, pressure), Heuristic);
        refreshed := refreshed + {id};
      }
      assert ids[..|ids|] == ids;
    }
  }

  lemma RefreshNobody(env: Env, net: Net, callId: string, reason: string, includeNew: bool)
    requires NetShape(net) && callId in net.calls
    ensures RefreshBids(env, net, callId, [], reason, includeNew) == net
  {
  }

  /** One more agent: it sees the call as it was before the refresh, its own bid included. */
  lemma RefreshNext(env: Env, net: Net, callId: string, ids: seq<string>, n: nat, reason: string, includeNew: bool)
    requires NetShape(net) && callId in net.calls && forall id :: id in ids ==> net.agents.Has(id)
    requires n < |ids| && forall i, j :: 0 <= i < j < |ids| ==> ids[i] != ids[j]
    ensures var net' := RefreshBids(env, net, callId, ids[..n], reason, includeNew);
            && RefreshBids(env, net, callId, ids[..n + 1], reason, includeNew) ==
              OfferBid(env, net', callId, ids[n], reason, includeNew)
            && net'.calls[callId].bounds == net.calls[callId].bounds
            && net'.calls[callId].bids.Get(ids[n]) == net.calls[callId].bids.Get(ids[n])
    ensures (set id | id in ids[..n + 1] && Refreshable(net.calls[callId], id, includeNew))
         == (set id | id in ids[..n] && Refreshable(net.calls[callId], id, includeNew))
          + (if Refreshable(net.calls[callId], ids[n], includeNew) then {ids[n]} else {})
  {
    hide Refreshable, OfferBid;
    assert ids[..n + 1][..n] == ids[..n];
    assert ids[n] !in ids[..n];
    assert ids[..n + 1] == ids[..n] + [ids[n]];
    RefreshKeepsOthers(env, net, callId, ids[..n], reason, includeNew);
  }

  lemma BeatsByCost(env: Env, busy: map<string, nat>, call: Call, challenger: Bid, incumbent: Bid)
    ensures EffectiveCost(env, busy, call, challenger) < EffectiveCost(env, busy, call, incumbent) ==>
              Beats(env, busy, call, challenger, incumbent)
    ensures EffectiveCost(env, busy, call, challenger) > EffectiveCost(env, busy, call, incumbent) ==>
              !Beats(env, busy, call, challenger, incumbent)
  {
    hide EffectiveCost;
  }

  /** Offering bids to some agents touches nothing but the bids those agents have on that call. */
  lemma {:induction false} RefreshKeepsOthers(
    env: Env, net: Net, callId: string, ids: seq<string>, reason: string, includeNew: bool)
    requires NetShape(net) && callId in net.calls && forall id :: id in ids ==> net.agents.Has(id)
    ensures var net' := RefreshBids(env, net, callId, ids, reason, includeNew);
            && net'.calls.Keys == net.calls.Keys && net'.busy == net.busy
            && (forall id :: id in net.calls && id != callId ==> net'.calls[id] == net.calls[id])
            && net'.calls[callId] == net.calls[callId].(bids := net'.calls[callId].bids)
            && (forall a :: a !in ids ==> net'.calls[callId].bids.Get(a) == net.calls[callId].bids.Get(a))
  {
    hide OfferBid;
    if ids != [] {
      var front, id := ids[..|ids| - 1], ids[|ids| - 1];
      RefreshKeepsOthers(env, net, callId, front, reason, includeNew);
      OfferTouchesOne(env, RefreshBids(env, net, callId, front, reason, includeNew), callId, id, reason, includeNew);
    }
  }

  /** An offer changes nothing but the bid of the agent it is made for, and that only if it is refreshable. */
  lemma OfferTouchesOne(env: Env, net: Net, callId: string, agentId: string, reason: string, includeNew: bool)
    requires NetShape(net) && callId in net.calls && net.agents.Has(agentId)
    ensures var net', call := OfferBid(env, net, callId, agentId, reason, includeNew), net.calls[callId];
            && net'.calls.Keys == net.calls.Keys && net'.busy == net.busy
            && (forall id :: id in net.calls && id != callId ==> net'.calls[id] == net.calls[id])
            && net'.calls[callId] == call.(bids := net'.calls[callId].bids)
            && (forall a :: a != agentId ==> net'.calls[callId].bids.Get(a) == call.bids.Get(a))
            && net'.calls[callId].bids.Get(agentId) == (
                 if !Refreshable(call, agentId, includeNew) then call.bids.Get(agentId)
                 else Some(Bid(agentId, HeuristicCost(net.agents.rows[agentId]), env.clock(net.ticks),
                                Derived(reason, Pressure(env, call.bounds)), Heuristic)))
  {
    hide Pressure, HeuristicCost;
  }
}
