/**
 What every run of the Contract-Net coordinator keeps, and what its event stream alone tells an observer.
 */
module ContractNetProofs {
  import opened Outcomes
  import opened JsMaps
  import opened ContractNetSpec
  import ContractNet
  import RealFacts

  // ---------------------------------------------------------------------------------------------
  // Runs
  // ---------------------------------------------------------------------------------------------

  datatype Op =
    | OpRegister(agentId: string, options: AgentOptions)
    | OpUnregister(agentId: string)
    | OpAnnounce(announcement: Announcement)
    | OpBid(callId: string, agentId: string, cost: real, data: string)
    | OpBounds(callId: string, bounds: Option<Bounds>, refreshAutoBids: bool, includeNew: bool)
    | OpAward(callId: string, preferred: string)
    | OpComplete(callId: string)

  /** Call identifiers end in a fresh random identifier. */
  predicate Admissible(net: Net, op: Op) {
    op.OpAnnounce? ==> op.announcement.callId !in net.calls
  }

  function Step(env: Env, penalty: real, net: Net, op: Op): Net
    requires Inv(net)
  {
    match op
    case OpRegister(agentId, options) => RegisterAgent(env, net, agentId, options).net
    case OpUnregister(agentId) => UnregisterAgent(env, net, agentId).net
    case OpAnnounce(a) => Announce(env, net, a, penalty).net
    case OpBid(callId, agentId, cost, data) => PlaceBid(env, net, callId, agentId, cost, data).net
    case OpBounds(callId, bounds, refreshAutoBids, includeNew) =>
      UpdateBounds(env, net, callId, bounds, refreshAutoBids, includeNew).net
    case OpAward(callId, preferred) => Award(env, net, callId, preferred).net
    case OpComplete(callId) => Complete(env, net, callId).net
  }

  ghost predicate AdmissibleRun(env: Env, penalty: real, net: Net, ops: seq<Op>)
    requires Inv(net)
    decreases |ops|
  {
    ops == [] ||
    (Admissible(net, ops[0]) && (
       StepKeepsInv(env, penalty, net, ops[0]);
       AdmissibleRun(env, penalty, Step(env, penalty, net, ops[0]), ops[1..])))
  }

  ghost function Run(env: Env, penalty: real, net: Net, ops: seq<Op>): Net
    requires Inv(net) && AdmissibleRun(env, penalty, net, ops)
    decreases |ops|
  {
    if ops == [] then net
    else
      StepKeepsInv(env, penalty, net, ops[0]);
      Run(env, penalty, Step(env, penalty, net, ops[0]), ops[1..])
  }

  // ---------------------------------------------------------------------------------------------
  // Invariant
  // ---------------------------------------------------------------------------------------------

  /** The calls an agent works on. */
  function Assigned(calls: map<string, Call>, agentId: string): set<string> {
    set id |
      id in calls && calls[id].status == Awarded
      && calls[id].awarded.Some? && calls[id].awarded.value.agentId == agentId
  }

  /** An open call has no award; an award is one of the bids, unchanged since. */
  ghost predicate CallInv(call: Call) {
    && call.bids.Valid()
    && (call.status == Open <==> call.awarded.None?)
    && (call.awarded.Some? <==> call.awardedAt.Some?)
    && (call.awarded.Some? ==> call.bids.Get(call.awarded.value.agentId) == call.awarded)
    && (forall a :: a in call.bids.rows ==> call.bids.rows[a].agentId == a)
    && call.heuristics.busyPenalty >= 0.0 && call.heuristics.preferenceBonus >= 0.0
  }

  ghost predicate Inv(net: Net) {
    && NetShape(net)
    && net.agents.Valid()
    && (forall id :: id in net.agents.rows ==>
      net.agents.rows[id].baseCost > 0.0 && 0.1 <= net.agents.rows[id].reliability <= 1.0)
    && (forall id :: id in net.calls ==> CallInv(net.calls[id]))
    && (forall a :: BusyOf(net.busy, a) == |Assigned(net.calls, a)|)
  }

  lemma StartIsInv()
    ensures Inv(START)
  {
    forall a ensures |Assigned(START.calls, a)| == 0 {
      assert Assigned(START.calls, a) == {};
    }
  }

  /** A call that neither gains nor loses an assignment leaves every count right. */
  lemma SameAssignments(calls: map<string, Call>, call: Call)
    requires call.status != Awarded
    requires call.callId in calls ==> calls[call.callId].status != Awarded
    ensures forall a :: Assigned(calls[call.callId := call], a) == Assigned(calls, a)
  {
  }

  lemma RecordBidKeepsInv(env: Env, net: Net, callId: string, agentId: string, cost: real, metadata: Metadata,
    kind: BidKind)
    requires Inv(net) && callId in net.calls && net.calls[callId].status == Open
    ensures Inv(RecordBid(env, net, callId, agentId, cost, metadata, kind))
  {
    var net' := RecordBid(env, net, callId, agentId, cost, metadata, kind);
    SameAssignments(net.calls, net'.calls[callId]);
  }

  lemma {:induction false} RefreshKeepsInv(env: Env, net: Net, callId: string, ids: seq<string>, reason: string,
    includeNew: bool)
    requires Inv(net) && callId in net.calls && net.calls[callId].status == Open
    requires forall id :: id in ids ==> net.agents.Has(id)
    ensures var net' := RefreshBids(env, net, callId, ids, reason, includeNew);
            Inv(net') && net'.calls[callId].status == Open
  {
    hide Inv, RecordBid;
    InvParts(net);
    if ids != [] {
      RefreshKeepsInv(env, net, callId, ids[..|ids| - 1], reason, includeNew);
      var mid := RefreshBids(env, net, callId, ids[..|ids| - 1], reason, includeNew);
      OfferKeepsInv(env, mid, callId, ids[|ids| - 1], reason, includeNew);
    }
  }

  lemma OfferKeepsInv(env: Env, net: Net, callId: string, id: string, reason: string, includeNew: bool)
    requires Inv(net) && callId in net.calls && net.calls[callId].status == Open && net.agents.Has(id)
    ensures var net' := OfferBid(env, net, callId, id, reason, includeNew);
            Inv(net') && net'.calls[callId].status == Open
  {
    if Refreshable(net.calls[callId], id, includeNew) {
      RecordBidKeepsInv(env, net, callId, id, HeuristicCost(net.agents.rows[id]),
        Derived(reason, Pressure(env, net.calls[callId].bounds)), Heuristic);
    }
  }

  lemma EmitKeepsInv(net: Net, event: Event)
    requires Inv(net)
    ensures Inv(Emit(net, event)) && Inv(Tick(net)) && Inv(Emit(Tick(net), event))
  {
  }

  /** Writing back an open call with other bounds or refresh flags, or a new open call without bids. */
  lemma SetOpenCallKeepsInv(net: Net, call: Call)
    requires Inv(net) && CallInv(call) && call.status == Open
    requires call.callId in net.calls ==> net.calls[call.callId].status == Open
    ensures Inv(SetCall(net, call))
  {
    SameAssignments(net.calls, call);
  }

  lemma RegisterKeepsInv(env: Env, net: Net, agentId: string, options: AgentOptions)
    requires Inv(net)
    ensures Inv(RegisterAgent(env, net, agentId, options).net)
  {
    var net' := RegisterAgent(env, net, agentId, options).net;
    forall a ensures BusyOf(net'.busy, a) == |Assigned(net'.calls, a)| {
      assert BusyOf(net'.busy, a) == BusyOf(net.busy, a);
    }
  }

  lemma UnregisterKeepsInv(env: Env, net: Net, agentId: string)
    requires Inv(net)
    ensures Inv(UnregisterAgent(env, net, agentId).net)
  {
  }

  lemma RefreshCallKeepsInv(env: Env, net: Net, callId: string, requested: bool, reason: string, includeNew: bool)
    requires Inv(net) && callId in net.calls && net.calls[callId].status == Open
    ensures Inv(RefreshCall(env, net, callId, requested, reason, includeNew))
  {
    hide Inv, RefreshBids, Refreshed;
    InvParts(net);
    if requested {
      RefreshKeepsInv(env, net, callId, net.agents.keys, reason, includeNew);
    }
    var offered := if requested then RefreshBids(env, net, callId, net.agents.keys, reason, includeNew) else net;
    InvParts(offered);
    var call := RefreshCall(env, net, callId, requested, reason, includeNew).calls[callId];
    SetOpenCallKeepsInv(offered, call);
  }

  lemma AnnounceKeepsInv(env: Env, net: Net, a: Announcement, penalty: real)
    requires Inv(net) && a.callId !in net.calls
    ensures Inv(Announce(env, net, a, penalty).net)
  {
    hide Inv, RefreshCall, Snapshot, NormaliseHeuristics, BlankTask;
    InvParts(net);
    if !BlankTask(a.taskId) {
      var posted := SetCall(Tick(net), NewCall(env, net, a, penalty));
      NewCallKeepsInv(env, net, a, penalty);
      InvParts(posted);
      if a.autoBid {
        RefreshCallKeepsInv(env, posted, a.callId, true, "auto", true);
      }
      var filled := if a.autoBid then RefreshCall(env, posted, a.callId, true, "auto", true) else posted;
      EmitKeepsInv(filled, CallAnnounced(env.clock(net.ticks), Snapshot(filled.calls[a.callId])));
    }
  }

  lemma NewCallKeepsInv(env: Env, net: Net, a: Announcement, penalty: real)
    requires Inv(net) && a.callId !in net.calls
    ensures Inv(SetCall(Tick(net), NewCall(env, net, a, penalty)))
  {
    SetOpenCallKeepsInv(Tick(net), NewCall(env, net, a, penalty));
  }

  lemma InvParts(net: Net)
    requires Inv(net)
    ensures NetShape(net) && net.agents.Valid() && forall id :: id in net.calls ==> CallInv(net.calls[id])
  {
  }

  lemma BoundedKeepsInv(net: Net, callId: string, bounds: Option<Bounds>)
    requires Inv(net) && callId in net.calls && net.calls[callId].status == Open
    ensures Inv(SetCall(net, net.calls[callId].(bounds := bounds)))
  {
    SetOpenCallKeepsInv(net, net.calls[callId].(bounds := bounds));
  }

  lemma BoundsKeepInv(env: Env, net: Net, callId: string, bounds: Option<Bounds>, refreshAutoBids: bool,
    includeNew: bool)
    requires Inv(net)
    ensures Inv(UpdateBounds(env, net, callId, bounds, refreshAutoBids, includeNew).net)
  {
    hide Inv, RefreshCall, Snapshot;
    InvParts(net);
    if callId in net.calls && net.calls[callId].status == Open {
      var bounded := SetCall(net, net.calls[callId].(bounds := bounds));
      BoundedKeepsInv(net, callId, bounds);
      InvParts(bounded);
      var requested := net.calls[callId].autoBid && refreshAutoBids;
      RefreshCallKeepsInv(env, bounded, callId, requested, "auto_refresh", includeNew);
      var filled := RefreshCall(env, bounded, callId, requested, "auto_refresh", includeNew);
      var snapshot := Snapshot(filled.calls[callId]);
      EmitKeepsInv(filled,
        BoundsUpdated(env.clock(filled.ticks), snapshot, snapshot.bounds, filled.calls[callId].refresh));
    }
  }

  lemma OneMoreAssigned(calls: map<string, Call>, call: Call, a: string)
    requires call.callId in calls && calls[call.callId].status != Awarded
    requires call.status == Awarded && call.awarded.Some?
    ensures |Assigned(calls[call.callId := call], a)|
         == |Assigned(calls, a)| + if call.awarded.value.agentId == a then 1 else 0
  {
    var after := Assigned(calls[call.callId := call], a);
    if call.awarded.value.agentId == a {
      assert after == Assigned(calls, a) + {call.callId};
    } else {
      assert after == Assigned(calls, a);
    }
  }

  lemma OneLessAssigned(calls: map<string, Call>, call: Call, a: string)
    requires call.callId in calls && calls[call.callId].status == Awarded && calls[call.callId].awarded.Some?
    requires call.status != Awarded && calls[call.callId].callId == call.callId
    ensures |Assigned(calls, a)|
         == |Assigned(calls[call.callId := call], a)| + if calls[call.callId].awarded.value.agentId == a then 1 else 0
  {
    var before := calls[call.callId];
    assert calls[call.callId := call][call.callId := before] == calls;
    OneMoreAssigned(calls[call.callId := call], before, a);
  }

  lemma GrantKeepsInv(env: Env, net: Net, call: Call, bid: Bid)
    requires Inv(net) && call.callId in net.calls && net.calls[call.callId] == call && call.status == Open
    requires bid.agentId in call.bids.rows && call.bids.rows[bid.agentId] == bid
    ensures Inv(Grant(env, net, call, bid).net)
  {
    hide Assigned, Snapshot, Decide;
    var net' := Grant(env, net, call, bid).net;
    forall a ensures BusyOf(net'.busy, a) == |Assigned(net'.calls, a)| {
      OneMoreAssigned(net.calls, net'.calls[call.callId], a);
    }
  }

  lemma ChosenIsABid(env: Env, net: Net, call: Call, preferred: string)
    requires CallInv(call)
    ensures var r := Chosen(env, net, call, preferred);
            r.Ok? ==> call.bids.Get(r.value.agentId) == Some(r.value)
  {
    hide Beats;
  }

  lemma AwardKeepsInv(env: Env, net: Net, callId: string, preferred: string)
    requires Inv(net)
    ensures Inv(Award(env, net, callId, preferred).net)
  {
    hide Grant, Chosen, EffectiveCost;
    if callId in net.calls {
      var call := net.calls[callId];
      if call.awarded.None? {
        ChosenIsABid(env, net, call, preferred);
        var r := Chosen(env, net, call, preferred);
        if r.Ok? {
          GrantKeepsInv(env, net, call, r.value);
        }
      }
    }
  }

  lemma CompleteKeepsInv(env: Env, net: Net, callId: string)
    requires Inv(net)
    ensures Inv(Complete(env, net, callId).net)
  {
    hide Assigned, Snapshot;
    if callId in net.calls && net.calls[callId].status == Awarded {
      var net' := Complete(env, net, callId).net;
      forall a ensures BusyOf(net'.busy, a) == |Assigned(net'.calls, a)| {
        OneLessAssigned(net.calls, net'.calls[callId], a);
      }
    }
  }

  lemma StepKeepsInv(env: Env, penalty: real, net: Net, op: Op)
    requires Inv(net) && Admissible(net, op)
    ensures Inv(Step(env, penalty, net, op))
  {
    match op
    case OpRegister(agentId, options) => RegisterKeepsInv(env, net, agentId, options);
    case OpUnregister(agentId) => UnregisterKeepsInv(env, net, agentId);
    case OpAnnounce(a) => AnnounceKeepsInv(env, net, a, penalty);
    case OpBid(callId, agentId, cost, data) =>
      if callId in net.calls && net.calls[callId].status == Open {
        RecordBidKeepsInv(env, net, callId, agentId, cost, Supplied(data), Manual);
      }
    case OpBounds(callId, bounds, refreshAutoBids, includeNew) =>
      BoundsKeepInv(env, net, callId, bounds, refreshAutoBids, includeNew);
    case OpAward(callId, preferred) => AwardKeepsInv(env, net, callId, preferred);
    case OpComplete(callId) => CompleteKeepsInv(env, net, callId);
  }

  /** In every reachable state the busy count of an agent is the number of calls it was awarded and
      has not completed. */
  lemma {:induction false} AssignmentsAreConserved(env: Env, penalty: real, net: Net, ops: seq<Op>, agentId: string)
    requires Inv(net) && AdmissibleRun(env, penalty, net, ops)
    ensures Inv(Run(env, penalty, net, ops))
    ensures BusyOf(Run(env, penalty, net, ops).busy, agentId) == |Assigned(Run(env, penalty, net, ops).calls, agentId)|
    decreases |ops|
  {
    if ops != [] {
      StepKeepsInv(env, penalty, net, ops[0]);
      AssignmentsAreConserved(env, penalty, Step(env, penalty, net, ops[0]), ops[1..], agentId);
    }
  }

  /** The clamp at zero in `decrementAssignments` never takes effect. */
  lemma ClampNeverBites(env: Env, net: Net, callId: string)
    requires Inv(net) && callId in net.calls && net.calls[callId].status == Awarded
    ensures var agentId := net.calls[callId].awarded.value.agentId;
            BusyOf(net.busy, agentId) >= 1 &&
            BusyOf(Complete(env, net, callId).net.busy, agentId) == BusyOf(net.busy, agentId) - 1
  {
    assert callId in Assigned(net.calls, net.calls[callId].awarded.value.agentId);
  }

  // ---------------------------------------------------------------------------------------------
  // Lifecycle
  // ---------------------------------------------------------------------------------------------

  function Rank(s: Status): nat {
    match s
    case Open => 0
    case Awarded => 1
    case Completed => 2
  }

  /** Status moves forward, an award and the bids beside it are frozen, and a manual bid stays manual. */
  ghost predicate CallProgress(before: Call, after: Call) {
    && Rank(before.status) <= Rank(after.status)
    && (before.status != Open ==> after.awarded == before.awarded && after.bids == before.bids)
    && (forall a :: a in before.bids.rows ==>
          a in after.bids.rows && (before.bids.rows[a].kind == Manual ==> after.bids.rows[a].kind == Manual))
  }

  ghost predicate Progress(before: Net, after: Net) {
    forall id :: id in before.calls ==> id in after.calls && CallProgress(before.calls[id], after.calls[id])
  }

  lemma {:induction false} RefreshProgresses(env: Env, net: Net, callId: string, ids: seq<string>, reason: string,
    includeNew: bool)
    requires Inv(net) && callId in net.calls && net.calls[callId].status == Open
    requires forall id :: id in ids ==> net.agents.Has(id)
    ensures Progress(net, RefreshBids(env, net, callId, ids, reason, includeNew))
    ensures RefreshBids(env, net, callId, ids, reason, includeNew).calls[callId].status == Open
  {
    hide HeuristicCost, Pressure;
    if ids != [] {
      RefreshProgresses(env, net, callId, ids[..|ids| - 1], reason, includeNew);
    }
  }

  lemma RefreshCallProgresses(env: Env, net: Net, callId: string, requested: bool, reason: string, includeNew: bool)
    requires Inv(net) && callId in net.calls && net.calls[callId].status == Open
    ensures Progress(net, RefreshCall(env, net, callId, requested, reason, includeNew))
  {
    hide RefreshBids, Refreshed, Inv;
    InvParts(net);
    if requested {
      RefreshProgresses(env, net, callId, net.agents.keys, reason, includeNew);
      ContractNet.RefreshKeepsOthers(env, net, callId, net.agents.keys, reason, includeNew);
    }
  }

  lemma AnnounceProgresses(env: Env, net: Net, a: Announcement, penalty: real)
    requires Inv(net) && a.callId !in net.calls
    ensures Progress(net, Announce(env, net, a, penalty).net)
  {
    hide RefreshCall, NormaliseHeuristics, BlankTask, Inv, CallInv, Snapshot;
    InvParts(net);
    if !BlankTask(a.taskId) {
      var posted := SetCall(Tick(net), NewCall(env, net, a, penalty));
      assert Progress(net, posted);
      if a.autoBid {
        NewCallKeepsInv(env, net, a, penalty);
        InvParts(posted);
        RefreshCallProgresses(env, posted, a.callId, true, "auto", true);
      }
    }
  }

  lemma BoundsProgress(env: Env, net: Net, callId: string, bounds: Option<Bounds>, refreshAutoBids: bool,
    includeNew: bool)
    requires Inv(net)
    ensures Progress(net, UpdateBounds(env, net, callId, bounds, refreshAutoBids, includeNew).net)
  {
    hide RefreshCall, Inv, CallInv, Snapshot;
    InvParts(net);
    if callId in net.calls && net.calls[callId].status == Open {
      var bounded := SetCall(net, net.calls[callId].(bounds := bounds));
      BoundedKeepsInv(net, callId, bounds);
      InvParts(bounded);
      RefreshCallProgresses(
        env, bounded, callId, net.calls[callId].autoBid && refreshAutoBids, "auto_refresh", includeNew);
    }
  }

  lemma PlaceBidProgresses(env: Env, net: Net, callId: string, agentId: string, cost: real, data: string)
    requires Inv(net)
    ensures Progress(net, PlaceBid(env, net, callId, agentId, cost, data).net)
  {
    hide Inv, Snapshot;
    InvParts(net);
  }

  lemma AwardProgresses(env: Env, net: Net, callId: string, preferred: string)
    requires Inv(net)
    ensures Progress(net, Award(env, net, callId, preferred).net)
  {
    hide Chosen, EffectiveCost, Inv, Snapshot;
    InvParts(net);
  }

  lemma CompleteProgresses(env: Env, net: Net, callId: string)
    requires Inv(net)
    ensures Progress(net, Complete(env, net, callId).net)
  {
    hide Inv, Snapshot;
    InvParts(net);
  }

  lemma SameCallsProgress(net: Net, net': Net)
    requires net'.calls == net.calls
    ensures Progress(net, net')
  {
  }

  lemma StepProgresses(env: Env, penalty: real, net: Net, op: Op)
    requires Inv(net) && Admissible(net, op)
    ensures Progress(net, Step(env, penalty, net, op))
  {
    hide Announce, UpdateBounds, PlaceBid, Award, Complete, MergeProfile, Inv, Progress;
    match op
    case OpRegister(agentId, options) => SameCallsProgress(net, Step(env, penalty, net, op));
    case OpUnregister(agentId) => SameCallsProgress(net, Step(env, penalty, net, op));
    case OpAnnounce(a) => AnnounceProgresses(env, net, a, penalty);
    case OpBid(callId, agentId, cost, data) => PlaceBidProgresses(env, net, callId, agentId, cost, data);
    case OpBounds(callId, bounds, refreshAutoBids, includeNew) =>
      BoundsProgress(env, net, callId, bounds, refreshAutoBids, includeNew);
    case OpAward(callId, preferred) => AwardProgresses(env, net, callId, preferred);
    case OpComplete(callId) => CompleteProgresses(env, net, callId);
  }

  /** Over any run: no call is lost or moves back, awards stand, and no heuristic bid replaces a manual one. */
  lemma {:induction false} RunProgresses(env: Env, penalty: real, net: Net, ops: seq<Op>)
    requires Inv(net) && AdmissibleRun(env, penalty, net, ops)
    ensures Progress(net, Run(env, penalty, net, ops))
    decreases |ops|
  {
    hide Step, Progress, CallProgress, Admissible, Inv;
    if ops == [] {
      SameCallsProgress(net, net);
    } else {
      StepKeepsInv(env, penalty, net, ops[0]);
      StepProgresses(env, penalty, net, ops[0]);
      var mid := Step(env, penalty, net, ops[0]);
      RunProgresses(env, penalty, mid, ops[1..]);
      ProgressTwice(net, mid, Run(env, penalty, net, ops));
    }
  }

  lemma ProgressTwice(a: Net, b: Net, c: Net)
    requires Progress(a, b) && Progress(b, c)
    ensures Progress(a, c)
  {
  }

  // ---------------------------------------------------------------------------------------------
  // The award
  // ---------------------------------------------------------------------------------------------

  lemma BeatsIsTransitive(env: Env, busy: map<string, nat>, call: Call, a: Bid, b: Bid, c: Bid)
    requires TotalOrder(env.before)
    requires Beats(env, busy, call, a, b) && Beats(env, busy, call, b, c)
    ensures Beats(env, busy, call, a, c)
  {
    hide EffectiveCost;
  }

  lemma BeatsIsTotal(env: Env, busy: map<string, nat>, call: Call, a: Bid, b: Bid)
    requires TotalOrder(env.before)
    ensures !(Beats(env, busy, call, a, b) && Beats(env, busy, call, b, a))
    ensures a.agentId != b.agentId ==> Beats(env, busy, call, a, b) || Beats(env, busy, call, b, a)
  {
    hide EffectiveCost;
  }

  /** The running winner beats every other bid looked at. */
  lemma {:induction false} BestBeatsAll(env: Env, busy: map<string, nat>, call: Call, keys: seq<string>)
    requires TotalOrder(env.before) && CallInv(call)
    requires keys != [] && forall k :: k in keys ==> k in call.bids.rows
    ensures var w := Best(env, busy, call, keys);
            forall k :: k in keys && k != w ==> Beats(env, busy, call, call.bids.rows[w], call.bids.rows[k])
    decreases |keys|
  {
    hide Beats;
    if |keys| > 1 {
      var front, last := keys[..|keys| - 1], keys[|keys| - 1];
      BestBeatsAll(env, busy, call, front);
      var v, w := Best(env, busy, call, front), Best(env, busy, call, keys);
      forall k | k in keys && k != w ensures Beats(env, busy, call, call.bids.rows[w], call.bids.rows[k]) {
        BeatsIsTotal(env, busy, call, call.bids.rows[last], call.bids.rows[v]);
        if k != last && k != v && v != last && w == last {
          BeatsIsTransitive(env, busy, call, call.bids.rows[w], call.bids.rows[v], call.bids.rows[k]);
        }
      }
    }
  }

  /** The bid map may be iterated in any order. */
  lemma BestIgnoresOrder(env: Env, busy: map<string, nat>, call: Call, keys: seq<string>, keys': seq<string>)
    requires TotalOrder(env.before) && CallInv(call)
    requires keys != [] && keys' != [] && (forall k :: k in keys ==> k in call.bids.rows)
    requires forall k :: k in keys <==> k in keys'
    ensures Best(env, busy, call, keys) == Best(env, busy, call, keys')
  {
    hide Beats;
    BestBeatsAll(env, busy, call, keys);
    BestBeatsAll(env, busy, call, keys');
    var w, w' := Best(env, busy, call, keys), Best(env, busy, call, keys');
    if w != w' {
      BeatsIsTotal(env, busy, call, call.bids.rows[w], call.bids.rows[w']);
    }
  }

  /**
   An open call awarded without preference goes to the one bid whose (effective cost, busy count, submission
   time, agent) is smallest. The decision reports that cost plus one busy penalty, because the winner's busy
   count has already been raised.
   */
  lemma AwardPicksTheBest(env: Env, net: Net, callId: string)
    requires TotalOrder(env.before) && Inv(net) && callId in net.calls && net.calls[callId].status == Open
    ensures var call, r := net.calls[callId], Award(env, net, callId, "").result;
            && (r.Ok? <==> call.bids.keys != [])
            && (r.Ok? ==>
                  && r.value.agentId in call.bids.rows
                  && (forall k :: k in call.bids.rows && k != r.value.agentId ==>
                        Beats(env, net.busy, call, call.bids.rows[r.value.agentId], call.bids.rows[k]))
                  && r.value.effectiveCost
                     == EffectiveCost(env, net.busy, call, call.bids.rows[r.value.agentId])
                        + call.heuristics.busyPenalty * Pressure(env, call.bounds))
  {
    hide Beats, Pressure, EffectiveCost, Award, Best;
    var call := net.calls[callId];
    AwardTakesBest(env, net, callId);
    if call.bids.keys != [] {
      BestBeatsAll(env, net.busy, call, call.bids.keys);
    }
  }

  lemma AwardTakesBest(env: Env, net: Net, callId: string)
    requires Inv(net) && callId in net.calls && net.calls[callId].status == Open
    ensures var call, r := net.calls[callId], Award(env, net, callId, "").result;
            && (r.Ok? <==> call.bids.keys != [])
            && (r.Ok? ==>
                  var best := Best(env, net.busy, call, call.bids.keys);
                  && best in call.bids.rows && r.value.agentId == best
                  && r.value.effectiveCost
                     == EffectiveCost(env, net.busy, call, call.bids.rows[best])
                        + call.heuristics.busyPenalty * Pressure(env, call.bounds))
  {
    hide Pressure, EffectiveCost, Best;
    var call := net.calls[callId];
    if call.bids.keys != [] {
      var bid := call.bids.rows[Best(env, net.busy, call, call.bids.keys)];
      var awarded := call.(awarded := Some(bid), status := Awarded, awardedAt := Some(env.clock(net.ticks)));
      var busy := net.busy[bid.agentId := BusyOf(net.busy, bid.agentId) + 1];
      OneMoreBusy(env, net.busy, busy, call, awarded, bid);
      assert Award(env, net, callId, "") == Grant(env, net, call, bid);
      assert Grant(env, net, call, bid).result == Ok(Decide(env, busy, awarded, bid, 0));
    }
  }

  lemma OneMoreBusy(env: Env, busy: map<string, nat>, busy': map<string, nat>, call: Call, call': Call, bid: Bid)
    requires BusyOf(busy', bid.agentId) == BusyOf(busy, bid.agentId) + 1
    requires call'.heuristics == call.heuristics && call'.bounds == call.bounds
    ensures EffectiveCost(env, busy', call', bid)
         == EffectiveCost(env, busy, call, bid) + call.heuristics.busyPenalty * Pressure(env, call.bounds)
  {
    hide Pressure;
    var p, n, f := call.heuristics.busyPenalty, BusyOf(busy, bid.agentId) as real, Pressure(env, call.bounds);
    assert p * (n + 1.0) * f == p * n * f + p * f by {
      assert p * (n + 1.0) == p * n + p;
    }
  }

  /** Awarding a second time changes nothing and repeats the decision, unless another agent is asked for. */
  lemma AwardIsIdempotent(env: Env, net: Net, callId: string, preferred: string, again: string)
    requires Inv(net) && callId in net.calls && net.calls[callId].status == Open
    requires Award(env, net, callId, preferred).result.Ok?
    ensures var first := Award(env, net, callId, preferred);
            var second := Award(env, first.net, callId, again);
            && second.net == first.net
            && (if again == "" || again == first.result.value.agentId then second.result == first.result
                else second.result == Err(AlreadyAwarded))
  {
    hide Chosen, EffectiveCost;
    AwardKeepsInv(env, net, callId, preferred);
    ChosenIsABid(env, net, net.calls[callId], preferred);
  }

  /** The pressure never lightens the busy penalty, and a bounded field at most doubles it. */
  lemma PressureRange(env: Env, bounds: Option<Bounds>)
    requires forall x :: x >= 0.0 ==> env.log1p(x) >= 0.0
    ensures Pressure(env, bounds) >= 1.0
    ensures bounds.Some? && bounds.value.max.Some? && bounds.value.max.value > bounds.value.min ==>
      Pressure(env, bounds) <= 2.0
  {
  }

  /** A higher ceiling never lowers the pressure. */
  lemma PressureGrows(env: Env, b: Bounds, ceiling: real)
    requires (forall x :: x >= 0.0 ==> env.log1p(x) >= 0.0)
      && (forall x, y :: 0.0 <= x <= y ==> env.log1p(x) <= env.log1p(y))
    requires b.ceiling <= ceiling
    ensures Pressure(env, Some(b)) <= Pressure(env, Some(b.(ceiling := ceiling)))
  {
    var low, high := Max(b.ceiling - b.min, 0.0), Max(ceiling - b.min, 0.0);
    assert low <= high;
    if b.max.Some? && Max(b.max.value - b.min, 0.0) > 0.0 && low > 0.0 {
      RealFacts.QuotientGrows(low, high, Max(b.max.value - b.min, 0.0));
    }
  }

  // ---------------------------------------------------------------------------------------------
  // The event stream tells everything
  // ---------------------------------------------------------------------------------------------

  /** What an observer keeps for each announced call. */
  datatype CallView =
    CallView(status: Status, bounds: Option<Bounds>, awardedAgent: Option<string>, autoBidRefreshed: bool,
      refreshedAgents: set<string>)

  /** An observer's copy, made from events alone. Busy counts are counted from awards and completions. */
  datatype Replica = Replica(
    agents: map<string, Agent>, calls: map<string, CallView>, bids: map<string, map<string, Bid>>,
    busy: map<string, int>)

  const BLANK := Replica(map[], map[], map[], map[])

  function BidsOf(rep: Replica, callId: string): map<string, Bid> {
    if callId in rep.bids then rep.bids[callId] else map[]
  }

  function BusyIn(rep: Replica, agentId: string): int {
    if agentId in rep.busy then rep.busy[agentId] else 0
  }

  function AwardedIn(rep: Replica, callId: string): string {
    if callId in rep.calls then rep.calls[callId].awardedAgent.GetOr("") else ""
  }

  function Apply(rep: Replica, event: Event): Replica {
    match event
    case AgentRegistered(_, snapshot, _) => rep.(agents := rep.agents[snapshot.agent.agentId := snapshot.agent])
    case AgentUnregistered(_, agentId, _) => rep.(agents := rep.agents - {agentId})
    case BidRecorded(_, callId, agentId, bid, _) =>
      rep.(bids := rep.bids[callId := BidsOf(rep, callId)[agentId := bid]])
    case CallAnnounced(_, call) =>
      rep.(calls := rep.calls[call.callId :=
          CallView(Open, call.bounds, None, call.autoBidRefreshed, call.refreshedAgents)])
    case BoundsUpdated(_, call, bounds, refresh) =>
      if call.callId !in rep.calls then rep
      else
        rep.(calls := rep.calls[call.callId :=
          rep.calls[call.callId].(bounds := bounds, autoBidRefreshed := refresh.autoBidRefreshed,
            refreshedAgents := refresh.agents)])
    case CallAwarded(_, call, decision) =>
      if call.callId !in rep.calls then rep
      else
        rep.(calls := rep.calls[call.callId :=
            rep.calls[call.callId].(status := Awarded, awardedAgent := Some(decision.agentId))],
             busy := rep.busy[decision.agentId := BusyIn(rep, decision.agentId) + 1])
    case CallCompleted(_, call) =>
      if call.callId !in rep.calls then rep
      else
        rep.(calls := rep.calls[call.callId := rep.calls[call.callId].(status := Completed)],
             busy := rep.busy[AwardedIn(rep, call.callId) := BusyIn(rep, AwardedIn(rep, call.callId)) - 1])
  }

  function Fold(log: seq<Event>): Replica {
    if log == [] then BLANK else Apply(Fold(log[..|log| - 1]), log[|log| - 1])
  }

  lemma FoldOneMore(log: seq<Event>, event: Event)
    ensures Fold(log + [event]) == Apply(Fold(log), event)
  {
    assert (log + [event])[..|log + [event]| - 1] == log;
  }

  /** The replica after a step that emitted one event. */
  lemma LastEvent(net: Net, net': Net)
    requires |net'.log| == |net.log| + 1 && net'.log[..|net.log|] == net.log
    ensures Fold(net'.log) == Apply(Fold(net.log), net'.log[|net.log|])
  {
    FoldOneMore(net.log, net'.log[|net.log|]);
    assert net'.log == net.log + [net'.log[|net.log|]];
  }

  function ViewOf(call: Call): CallView {
    CallView(call.status, call.bounds, if call.awarded.Some? then Some(call.awarded.value.agentId) else None,
      call.refresh.autoBidRefreshed, call.refresh.agents)
  }

  /** The replica equals the coordinator's state, but for the calls `hidden` that are not announced yet. */
  ghost predicate Matches(rep: Replica, net: Net, hidden: set<string>) {
    && rep.agents == net.agents.rows
    && CallsMatch(rep, net, hidden)
    && BidsMatch(rep, net)
    && BusyMatches(rep, net)
  }

  ghost predicate CallsMatch(rep: Replica, net: Net, hidden: set<string>) {
    && (forall id :: id in rep.calls <==> id in net.calls && id !in hidden)
    && (forall id :: id in rep.calls ==> rep.calls[id] == ViewOf(net.calls[id]))
  }

  ghost predicate BidsMatch(rep: Replica, net: Net) {
    forall id :: BidsOf(rep, id) == if id in net.calls then net.calls[id].bids.rows else map[]
  }

  ghost predicate BusyMatches(rep: Replica, net: Net) {
    forall a :: BusyIn(rep, a) == BusyOf(net.busy, a)
  }

  /** The bids stay right while an event leaves them alone and no call comes or goes. */
  lemma BidsUnaffected(rep: Replica, rep': Replica, net: Net, net': Net)
    requires BidsMatch(rep, net) && rep'.bids == rep.bids
    requires forall id :: id in net'.calls <==> id in net.calls
    requires forall id :: id in net.calls ==> net'.calls[id].bids == net.calls[id].bids
    ensures BidsMatch(rep', net')
  {
    forall id ensures BidsOf(rep', id) == if id in net'.calls then net'.calls[id].bids.rows else map[] {
      assert BidsOf(rep', id) == BidsOf(rep, id);
    }
  }

  lemma BusyUnaffected(rep: Replica, rep': Replica, net: Net, net': Net)
    requires BusyMatches(rep, net) && rep'.busy == rep.busy
    requires forall a :: BusyOf(net'.busy, a) == BusyOf(net.busy, a)
    ensures BusyMatches(rep', net')
  {
    forall a ensures BusyIn(rep', a) == BusyOf(net'.busy, a) {
      assert BusyIn(rep', a) == BusyIn(rep, a);
      assert BusyOf(net'.busy, a) == BusyOf(net.busy, a);
    }
  }

  lemma RecordBidMatches(env: Env, net: Net, callId: string, agentId: string, cost: real, metadata: Metadata,
    kind: BidKind, hidden: set<string>)
    requires NetShape(net) && callId in net.calls && Matches(Fold(net.log), net, hidden)
    ensures
      var net' := RecordBid(env, net, callId, agentId, cost, metadata, kind);
      Matches(Fold(net'.log), net', hidden)
  {
    hide Fold, BidsMatch, BusyMatches;
    var net' := RecordBid(env, net, callId, agentId, cost, metadata, kind);
    LastEvent(net, net');
    BusyUnaffected(Fold(net.log), Fold(net'.log), net, net');
    BidsShown(Fold(net.log), net, callId);
    BidShown(Fold(net.log), Fold(net'.log), net, net', callId);
  }

  lemma BidsShown(rep: Replica, net: Net, callId: string)
    requires BidsMatch(rep, net) && callId in net.calls
    ensures BidsOf(rep, callId) == net.calls[callId].bids.rows
  {
  }

  /** The bids of one call are shown anew. */
  lemma BidShown(rep: Replica, rep': Replica, net: Net, net': Net, callId: string)
    requires BidsMatch(rep, net) && callId in net.calls && callId in rep'.bids && callId in net'.calls
    requires forall id :: id in net'.calls <==> id in net.calls
    requires forall id :: id in net.calls && id != callId ==> net'.calls[id].bids == net.calls[id].bids
    requires rep'.bids == rep.bids[callId := rep'.bids[callId]]
    requires rep'.bids[callId] == net'.calls[callId].bids.rows
    ensures BidsMatch(rep', net')
  {
    forall id ensures BidsOf(rep', id) == if id in net'.calls then net'.calls[id].bids.rows else map[] {
      assert BidsOf(rep, id) == if id in net.calls then net.calls[id].bids.rows else map[];
    }
  }

  lemma {:induction false} RefreshMatches(env: Env, net: Net, callId: string, ids: seq<string>, reason: string,
    includeNew: bool, hidden: set<string>)
    requires NetShape(net) && callId in net.calls && Matches(Fold(net.log), net, hidden)
    requires forall id :: id in ids ==> net.agents.Has(id)
    ensures var net' := RefreshBids(env, net, callId, ids, reason, includeNew); Matches(Fold(net'.log), net', hidden)
  {
    hide Matches, RecordBid;
    if ids != [] {
      var front := ids[..|ids| - 1];
      RefreshMatches(env, net, callId, front, reason, includeNew, hidden);
      var mid := RefreshBids(env, net, callId, front, reason, includeNew);
      var id := ids[|ids| - 1];
      assert id in ids;
      if Refreshable(mid.calls[callId], id, includeNew) {
        RecordBidMatches(env, mid, callId, id, HeuristicCost(mid.agents.rows[id]),
          Derived(reason, Pressure(env, mid.calls[callId].bounds)), Heuristic, hidden);
      }
    }
  }

  lemma RegisterMatches(env: Env, net: Net, agentId: string, options: AgentOptions)
    requires Inv(net) && Matches(Fold(net.log), net, {})
    ensures var net' := RegisterAgent(env, net, agentId, options).net; Matches(Fold(net'.log), net', {})
  {
    hide NormalizeBaseCost, NormalizeReliability, Fold, BidsMatch, BusyMatches, ViewOf;
    var net' := RegisterAgent(env, net, agentId, options).net;
    LastEvent(net, net');
    BidsUnaffected(Fold(net.log), Fold(net'.log), net, net');
    BusyUnaffected(Fold(net.log), Fold(net'.log), net, net');
  }

  lemma UnregisterMatches(env: Env, net: Net, agentId: string)
    requires Inv(net) && Matches(Fold(net.log), net, {})
    ensures var net' := UnregisterAgent(env, net, agentId).net; Matches(Fold(net'.log), net', {})
  {
    var net' := UnregisterAgent(env, net, agentId).net;
    if net.agents.Has(agentId) {
      LastEvent(net, net');
    }
  }

  lemma PostedMatches(env: Env, net: Net, a: Announcement, penalty: real)
    requires a.callId !in net.calls && Matches(Fold(net.log), net, {})
    ensures
      var posted := SetCall(Tick(net), NewCall(env, net, a, penalty));
      Matches(Fold(posted.log), posted, {a.callId})
  {
    hide NormaliseHeuristics;
  }

  /** The announcement lifts the hidden call into view, its refresh flags included. */
  lemma AnnouncedMatches(net: Net, call: Call, event: Event)
    requires call.callId in net.calls && net.calls[call.callId].bids == call.bids
    requires call.status == Open && call.awarded.None? && Matches(Fold(net.log), net, {call.callId})
    requires event.CallAnnounced? && event.call == Snapshot(call)
    ensures var net' := Emit(SetCall(net, call), event); Matches(Fold(net'.log), net', {})
  {
    hide Fold, BidsMatch, BusyMatches;
    var net' := Emit(SetCall(net, call), event);
    LastEvent(net, net');
    BidsUnaffected(Fold(net.log), Fold(net'.log), net, net');
    BusyUnaffected(Fold(net.log), Fold(net'.log), net, net');
  }

  lemma AnnounceMatches(env: Env, net: Net, a: Announcement, penalty: real)
    requires Inv(net) && a.callId !in net.calls && Matches(Fold(net.log), net, {})
    ensures var net' := Announce(env, net, a, penalty).net; Matches(Fold(net'.log), net', {})
  {
    hide RefreshBids, Refreshed, NormaliseHeuristics, BlankTask, Inv, CallInv, Fold, Matches, Snapshot;
    InvParts(net);
    if !BlankTask(a.taskId) {
      var posted := SetCall(Tick(net), NewCall(env, net, a, penalty));
      PostedMatches(env, net, a, penalty);
      if a.autoBid {
        RefreshMatches(env, posted, a.callId, posted.agents.keys, "auto", true, {a.callId});
        ContractNet.RefreshKeepsOthers(env, posted, a.callId, posted.agents.keys, "auto", true);
        var offered := RefreshBids(env, posted, a.callId, posted.agents.keys, "auto", true);
        var call := RefreshCall(env, posted, a.callId, true, "auto", true).calls[a.callId];
        AnnouncedMatches(offered, call, CallAnnounced(env.clock(net.ticks), Snapshot(call)));
      } else {
        AnnouncedMatches(posted, posted.calls[a.callId],
          CallAnnounced(env.clock(net.ticks), Snapshot(posted.calls[a.callId])));
        assert SetCall(posted, posted.calls[a.callId]) == posted;
      }
    }
  }

  lemma BoundedLags(net: Net, callId: string, bounds: Option<Bounds>)
    requires NetShape(net) && callId in net.calls && Matches(Fold(net.log), net, {})
    ensures var bounded := SetCall(net, net.calls[callId].(bounds := bounds));
            Lags(Fold(bounded.log), bounded, callId, ViewOf(net.calls[callId]))
  {
  }

  /** The event brings the lagging call up to date. */
  lemma UpdatedMatches(net: Net, call: Call, event: Event, view: CallView)
    requires call.callId in net.calls && net.calls[call.callId].bids == call.bids
      && Lags(Fold(net.log), net, call.callId, view)
    requires view == ViewOf(call).(bounds := view.bounds, autoBidRefreshed := view.autoBidRefreshed,
      refreshedAgents := view.refreshedAgents)
    requires event.BoundsUpdated? && event.call == Snapshot(call) && event.bounds == call.bounds
      && event.refresh == call.refresh
    ensures var net' := Emit(Tick(SetCall(net, call)), event); Matches(Fold(net'.log), net', {})
  {
    hide Fold, BidsMatch, BusyMatches;
    var net' := Emit(Tick(SetCall(net, call)), event);
    var rep := Fold(net.log);
    LastEvent(net, net');
    BidsUnaffected(rep.(calls := rep.calls - {call.callId}), Fold(net'.log), net, net');
    BusyUnaffected(rep.(calls := rep.calls - {call.callId}), Fold(net'.log), net, net');
  }

  lemma BoundsMatch(env: Env, net: Net, callId: string, bounds: Option<Bounds>, refreshAutoBids: bool, includeNew: bool)
    requires Inv(net) && Matches(Fold(net.log), net, {})
    ensures
      var net' := UpdateBounds(env, net, callId, bounds, refreshAutoBids, includeNew).net;
      Matches(Fold(net'.log), net', {})
  {
    hide RefreshBids, Refreshed, Inv, CallInv, Fold, Matches, Lags;
    InvParts(net);
    if callId in net.calls && net.calls[callId].status == Open {
      // Until the event is out, the replica shows the old bounds of this one call.
      var before := net.calls[callId];
      var bounded := SetCall(net, before.(bounds := bounds));
      BoundedLags(net, callId, bounds);
      var requested := before.autoBid && refreshAutoBids;
      var offered := bounded;
      if requested {
        RefreshLagging(env, bounded, callId, bounded.agents.keys, "auto_refresh", includeNew, ViewOf(before));
        ContractNet.RefreshKeepsOthers(env, bounded, callId, bounded.agents.keys, "auto_refresh", includeNew);
        offered := RefreshBids(env, bounded, callId, bounded.agents.keys, "auto_refresh", includeNew);
      }
      var call := RefreshCall(env, bounded, callId, requested, "auto_refresh", includeNew).calls[callId];
      UpdatedMatches(offered, call,
        BoundsUpdated(env.clock(offered.ticks), Snapshot(call), call.bounds, call.refresh), ViewOf(before));
    }
  }

  /** `Matches`, except that the replica shows `view` for the call `callId`. */
  ghost predicate Lags(rep: Replica, net: Net, callId: string, view: CallView) {
    && callId in rep.calls && rep.calls[callId] == view
    && Matches(rep.(calls := rep.calls - {callId}), net, {callId})
  }

  lemma RecordBidLagging(env: Env, net: Net, callId: string, agentId: string, cost: real, metadata: Metadata,
    kind: BidKind, view: CallView)
    requires NetShape(net) && callId in net.calls && Lags(Fold(net.log), net, callId, view)
    ensures
      var net' := RecordBid(env, net, callId, agentId, cost, metadata, kind);
      Lags(Fold(net'.log), net', callId, view)
  {
    var net' := RecordBid(env, net, callId, agentId, cost, metadata, kind);
    LastEvent(net, net');
  }

  lemma {:induction false} RefreshLagging(env: Env, net: Net, callId: string, ids: seq<string>, reason: string,
    includeNew: bool, view: CallView)
    requires NetShape(net) && callId in net.calls && Lags(Fold(net.log), net, callId, view)
    requires forall id :: id in ids ==> net.agents.Has(id)
    ensures var net' := RefreshBids(env, net, callId, ids, reason, includeNew); Lags(Fold(net'.log), net', callId, view)
  {
    hide Lags, RecordBid;
    if ids != [] {
      var front := ids[..|ids| - 1];
      RefreshLagging(env, net, callId, front, reason, includeNew, view);
      var mid := RefreshBids(env, net, callId, front, reason, includeNew);
      var id := ids[|ids| - 1];
      assert id in ids;
      if Refreshable(mid.calls[callId], id, includeNew) {
        RecordBidLagging(env, mid, callId, id, HeuristicCost(mid.agents.rows[id]),
          Derived(reason, Pressure(env, mid.calls[callId].bounds)), Heuristic, view);
      }
    }
  }

  lemma GrantMatches(env: Env, net: Net, call: Call, bid: Bid)
    requires Inv(net) && call.callId in net.calls && net.calls[call.callId] == call && Matches(Fold(net.log), net, {})
    ensures var net' := Grant(env, net, call, bid).net; Matches(Fold(net'.log), net', {})
  {
    hide EffectiveCost, Fold, BidsMatch, BusyMatches, CallsMatch, Inv;
    InvParts(net);
    var net' := Grant(env, net, call, bid).net;
    LastEvent(net, net');
    CallShown(Fold(net.log), net, call.callId);
    CallMoves(Fold(net.log), Fold(net'.log), net, net', call.callId);
    BidsUnaffected(Fold(net.log), Fold(net'.log), net, net');
    CountOneMore(Fold(net.log), Fold(net'.log), net, net', bid.agentId);
  }

  lemma CallShown(rep: Replica, net: Net, callId: string)
    requires CallsMatch(rep, net, {}) && callId in net.calls
    ensures callId in rep.calls && rep.calls[callId] == ViewOf(net.calls[callId])
  {
  }

  /** One call is shown anew. */
  lemma CallMoves(rep: Replica, rep': Replica, net: Net, net': Net, callId: string)
    requires CallsMatch(rep, net, {}) && callId in net.calls && callId in net'.calls
    requires net'.calls == net.calls[callId := net'.calls[callId]]
    requires rep'.calls == rep.calls[callId := ViewOf(net'.calls[callId])]
    ensures CallsMatch(rep', net', {})
  {
  }

  lemma CountOneMore(rep: Replica, rep': Replica, net: Net, net': Net, agentId: string)
    requires BusyMatches(rep, net)
    requires rep'.busy == rep.busy[agentId := BusyIn(rep, agentId) + 1]
    requires net'.busy == net.busy[agentId := BusyOf(net.busy, agentId) + 1]
    ensures BusyMatches(rep', net')
  {
    forall a ensures BusyIn(rep', a) == BusyOf(net'.busy, a) {
      assert BusyIn(rep, a) == BusyOf(net.busy, a);
    }
  }

  lemma CountOneLess(rep: Replica, rep': Replica, net: Net, net': Net, agentId: string)
    requires BusyMatches(rep, net) && BusyOf(net.busy, agentId) >= 1
    requires rep'.busy == rep.busy[agentId := BusyIn(rep, agentId) - 1]
    requires net'.busy == net.busy[agentId := BusyOf(net.busy, agentId) - 1]
    ensures BusyMatches(rep', net')
  {
    forall a ensures BusyIn(rep', a) == BusyOf(net'.busy, a) {
      assert BusyIn(rep, a) == BusyOf(net.busy, a);
    }
  }

  lemma AwardMatches(env: Env, net: Net, callId: string, preferred: string)
    requires Inv(net) && Matches(Fold(net.log), net, {})
    ensures var net' := Award(env, net, callId, preferred).net; Matches(Fold(net'.log), net', {})
  {
    hide Grant, Chosen, EffectiveCost, Matches;
    if callId in net.calls && net.calls[callId].awarded.None? {
      var r := Chosen(env, net, net.calls[callId], preferred);
      if r.Ok? {
        GrantMatches(env, net, net.calls[callId], r.value);
      }
    }
  }

  lemma CompletedMatches(env: Env, net: Net, callId: string)
    requires NetShape(net) && Matches(Fold(net.log), net, {})
    requires callId in net.calls && net.calls[callId].status == Awarded && net.calls[callId].awarded.Some?
    requires BusyOf(net.busy, net.calls[callId].awarded.value.agentId) >= 1
    ensures var net' := Complete(env, net, callId).net; Matches(Fold(net'.log), net', {})
  {
    hide Fold, BidsMatch, BusyMatches, CallsMatch;
    var net' := Complete(env, net, callId).net;
    LastEvent(net, net');
    CallShown(Fold(net.log), net, callId);
    CallMoves(Fold(net.log), Fold(net'.log), net, net', callId);
    BidsUnaffected(Fold(net.log), Fold(net'.log), net, net');
    CountOneLess(Fold(net.log), Fold(net'.log), net, net', net.calls[callId].awarded.value.agentId);
  }

  lemma CompleteMatches(env: Env, net: Net, callId: string)
    requires Inv(net) && Matches(Fold(net.log), net, {})
    ensures var net' := Complete(env, net, callId).net; Matches(Fold(net'.log), net', {})
  {
    hide Inv, Matches, Fold;
    InvParts(net);
    if callId in net.calls && net.calls[callId].status == Awarded {
      ClampNeverBites(env, net, callId);
      CompletedMatches(env, net, callId);
    }
  }

  lemma StepMatches(env: Env, penalty: real, net: Net, op: Op)
    requires Inv(net) && Admissible(net, op) && Matches(Fold(net.log), net, {})
    ensures var net' := Step(env, penalty, net, op); Matches(Fold(net'.log), net', {})
  {
    hide Matches, RecordBid, RegisterAgent, UnregisterAgent, Announce, UpdateBounds, Award, Complete;
    match op
    case OpRegister(agentId, options) => RegisterMatches(env, net, agentId, options);
    case OpUnregister(agentId) => UnregisterMatches(env, net, agentId);
    case OpAnnounce(a) => AnnounceMatches(env, net, a, penalty);
    case OpBid(callId, agentId, cost, data) =>
      if callId in net.calls {
        RecordBidMatches(env, net, callId, agentId, cost, Supplied(data), Manual, {});
      }
    case OpBounds(callId, bounds, refreshAutoBids, includeNew) =>
      BoundsMatch(env, net, callId, bounds, refreshAutoBids, includeNew);
    case OpAward(callId, preferred) => AwardMatches(env, net, callId, preferred);
    case OpComplete(callId) => CompleteMatches(env, net, callId);
  }

  lemma {:induction false} RunMatches(env: Env, penalty: real, net: Net, ops: seq<Op>)
    requires Inv(net) && AdmissibleRun(env, penalty, net, ops) && Matches(Fold(net.log), net, {})
    ensures var net' := Run(env, penalty, net, ops); Matches(Fold(net'.log), net', {})
    decreases |ops|
  {
    hide Matches, Step;
    if ops != [] {
      StepKeepsInv(env, penalty, net, ops[0]);
      StepMatches(env, penalty, net, ops[0]);
      RunMatches(env, penalty, Step(env, penalty, net, ops[0]), ops[1..]);
    }
  }

  // ---------------------------------------------------------------------------------------------
  // From the start
  // ---------------------------------------------------------------------------------------------

  ghost predicate AdmissibleFromStart(env: Env, penalty: real, ops: seq<Op>) {
    StartIsInv();
    AdmissibleRun(env, penalty, START, ops)
  }

  /** The coordinator after some operations on an empty one. */
  ghost function Reached(env: Env, penalty: real, ops: seq<Op>): (net: Net)
    requires AdmissibleFromStart(env, penalty, ops)
    ensures Inv(net)
  {
    StartIsInv();
    AssignmentsAreConserved(env, penalty, START, ops, "");
    Run(env, penalty, START, ops)
  }

  /**
   After any run from an empty coordinator, folding the emitted events alone rebuilds the registered agents,
   every call's public state with its bids, and every busy count.
   */
  lemma EventsRebuildState(env: Env, penalty: real, ops: seq<Op>)
    requires AdmissibleFromStart(env, penalty, ops)
    ensures var net := Reached(env, penalty, ops); Matches(Fold(net.log), net, {})
  {
    hide Inv, Matches;
    StartIsInv();
    assert Matches(Fold(START.log), START, {}) by { NothingToRebuild(); }
    RunMatches(env, penalty, START, ops);
  }

  lemma NothingToRebuild()
    ensures Matches(Fold(START.log), START, {})
  {
  }

  /** In every state reached from the start, the busy count of an agent is the number of calls in its hands. */
  lemma ReachedConservesAssignments(env: Env, penalty: real, ops: seq<Op>, agentId: string)
    requires AdmissibleFromStart(env, penalty, ops)
    ensures var net := Reached(env, penalty, ops); BusyOf(net.busy, agentId) == |Assigned(net.calls, agentId)|
  {
    hide Inv;
    StartIsInv();
    AssignmentsAreConserved(env, penalty, START, ops, agentId);
  }

  /** From any state reached to any later one, calls only move forward. */
  lemma ReachedProgresses(env: Env, penalty: real, ops: seq<Op>, more: seq<Op>)
    requires AdmissibleFromStart(env, penalty, ops) && AdmissibleFromStart(env, penalty, ops + more)
    ensures Progress(Reached(env, penalty, ops), Reached(env, penalty, ops + more))
  {
    hide Inv, Run, AdmissibleRun;
    StartIsInv();
    RunGoesOn(env, penalty, START, ops, more);
    RunProgresses(env, penalty, Reached(env, penalty, ops), more);
  }

  /** Running on from where a run ended. */
  lemma {:induction false} RunGoesOn(env: Env, penalty: real, net: Net, ops: seq<Op>, more: seq<Op>)
    requires Inv(net) && AdmissibleRun(env, penalty, net, ops) && AdmissibleRun(env, penalty, net, ops + more)
    ensures var mid := Run(env, penalty, net, ops);
            && Inv(mid) && AdmissibleRun(env, penalty, mid, more)
            && Run(env, penalty, mid, more) == Run(env, penalty, net, ops + more)
    decreases |ops|
  {
    hide Inv, Step;
    if ops == [] {
      assert ops + more == more;
    } else {
      StepKeepsInv(env, penalty, net, ops[0]);
      assert (ops + more)[1..] == ops[1..] + more && (ops + more)[0] == ops[0];
      RunGoesOn(env, penalty, Step(env, penalty, net, ops[0]), ops[1..], more);
    }
  }

  // ---------------------------------------------------------------------------------------------
  // What the steps report
  // ---------------------------------------------------------------------------------------------

  /** A refresh replaces or adds exactly the heuristic bids it names, at the current cost and
      pressure; manual bids stand. */
  lemma {:induction false} RefreshOffers(env: Env, net: Net, callId: string, ids: seq<string>, reason: string,
    includeNew: bool, a: string)
    requires NetShape(net) && callId in net.calls && forall id :: id in ids ==> net.agents.Has(id)
    requires forall i, j :: 0 <= i < j < |ids| ==> ids[i] != ids[j]
    ensures
      var before := net.calls[callId];
      var after := RefreshBids(env, net, callId, ids, reason, includeNew).calls[callId];
      if a in ids && Refreshable(before, a, includeNew)
      then
        && after.bids.Get(a).Some?
        && var bid := after.bids.rows[a];
           bid == Bid(a, HeuristicCost(net.agents.rows[a]), bid.submittedAt,
             Derived(reason, Pressure(env, before.bounds)), Heuristic)
      else after.bids.Get(a) == before.bids.Get(a)
  {
    hide Pressure, HeuristicCost, OfferBid;
    if ids != [] {
      var front, id := ids[..|ids| - 1], ids[|ids| - 1];
      assert id !in front;
      RefreshOffers(env, net, callId, front, reason, includeNew, a);
      ContractNet.RefreshKeepsOthers(env, net, callId, front, reason, includeNew);
      var mid := RefreshBids(env, net, callId, front, reason, includeNew);
      ContractNet.OfferTouchesOne(env, mid, callId, id, reason, includeNew);
    }
  }

  /** After a bounds update the call carries the new bounds, and its refreshed agents are those with
      a fresh heuristic bid. */
  lemma BoundsUpdateTakesEffect(
    env: Env, net: Net, callId: string, bounds: Option<Bounds>, refreshAutoBids: bool, includeNew: bool, a: string)
    requires Inv(net) && callId in net.calls && net.calls[callId].status == Open
    ensures var before := net.calls[callId];
            var after := UpdateBounds(env, net, callId, bounds, refreshAutoBids, includeNew).net.calls[callId];
            && after.bounds == bounds && after.status == Open
            && (a in after.refresh.agents <==>
                  before.autoBid && refreshAutoBids && net.agents.Has(a) && Refreshable(before, a, includeNew))
            && (a in after.refresh.agents ==>
                  after.bids.Get(a).Some?
                    && after.bids.rows[a].metadata == Derived("auto_refresh", Pressure(env, bounds)))
            && (a !in after.refresh.agents ==> after.bids.Get(a) == before.bids.Get(a))
  {
    hide Pressure, HeuristicCost, RefreshBids;
    var bounded := SetCall(net, net.calls[callId].(bounds := bounds));
    if bounded.calls[callId].autoBid && refreshAutoBids {
      RefreshOffers(env, bounded, callId, bounded.agents.keys, "auto_refresh", includeNew, a);
      ContractNet.RefreshKeepsOthers(env, bounded, callId, bounded.agents.keys, "auto_refresh", includeNew);
    }
  }

  function CallOf(event: Event): Option<CallSnapshot> {
    match event
    case CallAnnounced(_, call) => Some(call)
    case CallAwarded(_, call, _) => Some(call)
    case BoundsUpdated(_, call, _, _) => Some(call)
    case CallCompleted(_, call) => Some(call)
    case _ => None
  }

  /** A call snapshot inside an event shows the call as the step leaves it. */
  lemma SnapshotsAreCurrent(env: Env, penalty: real, net: Net, op: Op)
    requires Inv(net) && Admissible(net, op)
    ensures var net' := Step(env, penalty, net, op);
            |net'.log| > |net.log| ==>
              var call := CallOf(net'.log[|net'.log| - 1]);
              call.Some? ==> call.value.callId in net'.calls && call.value == Snapshot(net'.calls[call.value.callId])
  {
    hide RefreshBids, Refreshed, Chosen, EffectiveCost, NormaliseHeuristics, BlankTask, Inv, MergeProfile;
    InvParts(net);
  }
}
