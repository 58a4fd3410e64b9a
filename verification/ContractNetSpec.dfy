/**
 The Contract-Net protocol (src/coord/contractNet.ts) as steps on a state: agents, busy counts, calls with
 their bids, and the stream of emitted events.
 */
module ContractNetSpec {
  import opened Outcomes
  import opened JsMaps

  // ---------------------------------------------------------------------------------------------
  // Data
  // ---------------------------------------------------------------------------------------------

  /**
   What the coordinator is given from outside: the n-th clock reading, `Math.log1p`, and the order that
   `localeCompare` puts on agent identifiers.
   */
  datatype Env = Env(clock: nat -> int, log1p: real -> real, before: (string, string) -> bool)

  ghost predicate TotalOrder(before: (string, string) -> bool) {
    && (forall a :: !before(a, a))
    && (forall a, b, c :: before(a, b) && before(b, c) ==> before(a, c))
    && (forall a, b :: a != b ==> before(a, b) || before(b, a))
  }

  datatype BidKind = Manual | Heuristic

  datatype Metadata = Supplied(data: string) | Derived(reason: string, pressure: real)

  datatype Bid = Bid(agentId: string, cost: real, submittedAt: int, metadata: Metadata, kind: BidKind)

  datatype Bounds = Bounds(min: real, max: Option<real>, ceiling: real)

  datatype Heuristics = Heuristics(prefer: set<string>, bias: map<string, real>, busyPenalty: real,
    preferenceBonus: real)

  datatype HeuristicsInput =
    HeuristicsInput(prefer: set<string>, bias: map<string, real>, busyPenalty: Option<real>,
      preferenceBonus: Option<real>)

  datatype Agent = Agent(agentId: string, baseCost: real, reliability: real, profile: string, registeredAt: int)

  datatype AgentOptions = AgentOptions(baseCost: Option<real>, reliability: Option<real>, profile: Option<string>)

  datatype Status = Open | Awarded | Completed

  datatype Refresh = Refresh(requested: bool, includeNew: bool, autoBidRefreshed: bool, agents: set<string>)

  datatype Call = Call(
    callId: string,
    taskId: string,
    heuristics: Heuristics,
    bounds: Option<Bounds>,
    autoBid: bool,
    status: Status,
    announcedAt: int,
    awarded: Option<Bid>,
    awardedAt: Option<int>,
    bids: JsMap<Bid>,
    refresh: Refresh
  )

  datatype AgentSnapshot = AgentSnapshot(agent: Agent, activeAssignments: nat)

  datatype CallSnapshot = CallSnapshot(
    callId: string,
    taskId: string,
    heuristics: Heuristics,
    bounds: Option<Bounds>,
    autoBid: bool,
    status: Status,
    announcedAt: int,
    awardedAgent: Option<string>,
    awardedAt: Option<int>,
    bids: map<string, Bid>,
    refreshedAgents: set<string>,
    autoBidRefreshed: bool
  )

  datatype Decision = Decision(callId: string, agentId: string, cost: real, effectiveCost: real, awardedAt: int,
    bids: map<string, Bid>)

  datatype Event =
    | AgentRegistered(at: int, snapshot: AgentSnapshot, updated: bool)
    | AgentUnregistered(at: int, agentId: string, remaining: nat)
    | CallAnnounced(at: int, call: CallSnapshot)
    | BidRecorded(at: int, callId: string, agentId: string, bid: Bid, previousKind: Option<BidKind>)
    | CallAwarded(at: int, call: CallSnapshot, decision: Decision)
    | BoundsUpdated(at: int, call: CallSnapshot, bounds: Option<Bounds>, refresh: Refresh)
    | CallCompleted(at: int, call: CallSnapshot)

  datatype NetError =
    | EmptyTask
    | UnknownCall
    | NotOpen
    | UnknownAgent
    | BadCost
    | NoBids
    | NoSuchBid
    | AlreadyAwarded
    | NotAwarded

  /** `ticks` counts the clock readings taken so far. */
  datatype Net = Net(agents: JsMap<Agent>, busy: map<string, nat>, calls: map<string, Call>, ticks: nat,
    log: seq<Event>)

  datatype Outcome<+T> = Outcome(net: Net, result: Result<T, NetError>)

  const START := Net(Empty(), map[], map[], 0, [])

  // ---------------------------------------------------------------------------------------------
  // Arithmetic
  // ---------------------------------------------------------------------------------------------

  function Max(a: real, b: real): real { if a < b then b else a }

  function Min(a: real, b: real): real { if a < b then a else b }

  /** Factor by which saturated pheromones scale the busy penalty. */
  function Pressure(env: Env, bounds: Option<Bounds>): real {
    if bounds.None? then 1.0
    else
      var b := bounds.value;
      var observed := Max(b.ceiling - b.min, 0.0);
      if observed <= 0.0 then 1.0
      else if b.max.Some? && Max(b.max.value - b.min, 0.0) > 0.0 then
        1.0 + Min(observed / Max(b.max.value - b.min, 0.0), 1.0)
      else 1.0 + env.log1p(observed)
  }

  function NormalizeBaseCost(cost: real): real {
    if cost <= 0.0 then 100.0 else cost
  }

  function NormalizeReliability(reliability: real): real {
    if reliability <= 0.0 then 0.5 else Max(0.1, Min(1.0, reliability))
  }

  function HeuristicCost(agent: Agent): real {
    var reliability := if agent.reliability <= 0.0 then 0.1 else agent.reliability;
    var adjusted := agent.baseCost / reliability;
    if adjusted > 0.0 then adjusted else agent.baseCost
  }

  function NormaliseHeuristics(h: HeuristicsInput, defaultBusyPenalty: real): Heuristics {
    Heuristics(h.prefer, h.bias, Max(0.0, h.busyPenalty.GetOr(defaultBusyPenalty)),
      Max(0.0, h.preferenceBonus.GetOr(1.0)))
  }

  function BusyOf(busy: map<string, nat>, agentId: string): nat {
    if agentId in busy then busy[agentId] else 0
  }

  function EffectiveCost(env: Env, busy: map<string, nat>, call: Call, bid: Bid): real {
    bid.cost
    + call.heuristics.busyPenalty * BusyOf(busy, bid.agentId) as real * Pressure(env, call.bounds)
    - (if bid.agentId in call.heuristics.prefer then call.heuristics.preferenceBonus else 0.0)
    - (if bid.agentId in call.heuristics.bias then call.heuristics.bias[bid.agentId] else 0.0)
  }

  // ---------------------------------------------------------------------------------------------
  // Choosing a bid
  // ---------------------------------------------------------------------------------------------

  /** Lexicographic order on (effective cost, busy count, submission time, agent identifier). */
  predicate Beats(env: Env, busy: map<string, nat>, call: Call, challenger: Bid, incumbent: Bid) {
    var c, i := EffectiveCost(env, busy, call, challenger), EffectiveCost(env, busy, call, incumbent);
    var cb, ib := BusyOf(busy, challenger.agentId), BusyOf(busy, incumbent.agentId);
    c < i || (c == i &&
      (cb < ib || (cb == ib &&
        (challenger.submittedAt < incumbent.submittedAt || (challenger.submittedAt == incumbent.submittedAt &&
          env.before(challenger.agentId, incumbent.agentId))))))
  }

  /** The winner after the bids of `keys` were compared from left to right. */
  function Best(env: Env, busy: map<string, nat>, call: Call, keys: seq<string>): (winner: string)
    requires keys != [] && forall k :: k in keys ==> k in call.bids.rows
    ensures winner in keys
  {
    var last := keys[|keys| - 1];
    if |keys| == 1 then last
    else
      var w := Best(env, busy, call, keys[..|keys| - 1]);
      if Beats(env, busy, call, call.bids.rows[last], call.bids.rows[w]) then last else w
  }

  // ---------------------------------------------------------------------------------------------
  // Steps
  // ---------------------------------------------------------------------------------------------

  function Snapshot(call: Call): CallSnapshot {
    CallSnapshot(call.callId, call.taskId, call.heuristics, call.bounds, call.autoBid, call.status, call.announcedAt,
      if call.awarded.Some? then Some(call.awarded.value.agentId) else None,
      call.awardedAt, call.bids.rows, call.refresh.agents, call.refresh.autoBidRefreshed)
  }

  function Decide(env: Env, busy: map<string, nat>, call: Call, bid: Bid, at: int): Decision {
    Decision(call.callId, bid.agentId, bid.cost, EffectiveCost(env, busy, call, bid), call.awardedAt.GetOr(at),
      call.bids.rows)
  }

  function Tick(net: Net): Net {
    net.(ticks := net.ticks + 1)
  }

  function Emit(net: Net, event: Event): Net {
    net.(log := net.log + [event])
  }

  function SetCall(net: Net, call: Call): Net {
    net.(calls := net.calls[call.callId := call])
  }

  /** Options left out keep the registered value, or the default. */
  function MergeProfile(existing: Option<Agent>, agentId: string, options: AgentOptions, registeredAt: int)
    : (agent: Agent)
    ensures agent.agentId == agentId && agent.registeredAt == registeredAt
  {
    var current := existing.GetOr(Agent(agentId, 100.0, 1.0, "", registeredAt));
    Agent(agentId, NormalizeBaseCost(options.baseCost.GetOr(current.baseCost)),
      NormalizeReliability(options.reliability.GetOr(current.reliability)), options.profile.GetOr(current.profile),
      registeredAt)
  }

  function RegisterAgent(env: Env, net: Net, agentId: string, options: AgentOptions): Outcome<AgentSnapshot> {
    var existing := net.agents.Get(agentId);
    var agent := MergeProfile(existing, agentId, options,
      if existing.Some? then existing.value.registeredAt else env.clock(net.ticks));
    var ticks := if existing.Some? then net.ticks else net.ticks + 1;
    var busy := if agentId in net.busy then net.busy else net.busy[agentId := 0];
    var snapshot := AgentSnapshot(agent, BusyOf(busy, agentId));
    var net' := net.(agents := net.agents.Put(agentId, agent), busy := busy, ticks := ticks + 1);
    Outcome(Emit(net', AgentRegistered(env.clock(ticks), snapshot, existing.Some?)), Ok(snapshot))
  }

  function UnregisterAgent(env: Env, net: Net, agentId: string): Outcome<bool> {
    if !net.agents.Has(agentId) then Outcome(net, Ok(false))
    else
      var net' := Tick(net.(agents := net.agents.Delete(agentId)));
      Outcome(Emit(net', AgentUnregistered(env.clock(net.ticks), agentId, BusyOf(net.busy, agentId))), Ok(true))
  }

  function RecordBid(env: Env, net: Net, callId: string, agentId: string, cost: real, metadata: Metadata,
    kind: BidKind): Net
    requires callId in net.calls && net.calls[callId].callId == callId
  {
    var call := net.calls[callId];
    var previous := call.bids.Get(agentId);
    var bid := Bid(agentId, cost, env.clock(net.ticks), metadata, kind);
    var net' := SetCall(Tick(net), call.(bids := call.bids.Put(agentId, bid)));
    Emit(net', BidRecorded(bid.submittedAt, callId, agentId, bid,
      if previous.Some? then Some(previous.value.kind) else None))
  }

  /** The agent gets a heuristic bid: no manual bid stands, and one is there already unless newcomers are let in. */
  predicate Refreshable(call: Call, agentId: string, includeNew: bool) {
    match call.bids.Get(agentId)
    case Some(bid) => bid.kind != Manual
    case None => includeNew
  }

  predicate NetShape(net: Net) {
    && (forall id :: id in net.calls ==> net.calls[id].callId == id)
    && (forall id :: id in net.agents.rows ==> net.agents.rows[id].agentId == id)
  }

  function OfferBid(env: Env, net: Net, callId: string, agentId: string, reason: string, includeNew: bool): (net': Net)
    requires NetShape(net) && callId in net.calls && net.agents.Has(agentId)
    ensures NetShape(net') && callId in net'.calls && net'.agents == net.agents
  {
    var call := net.calls[callId];
    if !Refreshable(call, agentId, includeNew) then net
    else
      RecordBid(env, net, callId, agentId, HeuristicCost(net.agents.rows[agentId]),
        Derived(reason, Pressure(env, call.bounds)), Heuristic)
  }

  /** Heuristic bids offered to the agents `ids`, one after the other. */
  function RefreshBids(env: Env, net: Net, callId: string, ids: seq<string>, reason: string, includeNew: bool)
    : (net': Net)
    requires NetShape(net) && callId in net.calls && forall id :: id in ids ==> net.agents.Has(id)
    ensures NetShape(net') && callId in net'.calls && net'.agents == net.agents
  {
    if ids == [] then net
    else
      OfferBid(env, RefreshBids(env, net, callId, ids[..|ids| - 1], reason, includeNew), callId, ids[|ids| - 1],
        reason, includeNew)
  }

  function Refreshed(net: Net, callId: string, includeNew: bool): set<string>
    requires callId in net.calls
  {
    set id | id in net.agents.keys && Refreshable(net.calls[callId], id, includeNew)
  }

  datatype Announcement = Announcement(
    callId: string, taskId: string, heuristics: HeuristicsInput, bounds: Option<Bounds>, autoBid: bool)

  /** The task identifier is empty once trimmed. */
  predicate BlankTask(taskId: string) {
    forall k :: 0 <= k < |taskId| ==> taskId[k] == ' ' || '\t' <= taskId[k] <= '\r'
  }

  function NewCall(env: Env, net: Net, a: Announcement, defaultBusyPenalty: real): Call {
    Call(a.callId, a.taskId, NormaliseHeuristics(a.heuristics, defaultBusyPenalty), a.bounds, a.autoBid, Open,
      env.clock(net.ticks), None, None, Empty(), Refresh(false, true, false, {}))
  }

  /** Heuristic bids are offered to every registered agent when `requested`, and the refresh flags say so. */
  function RefreshCall(env: Env, net: Net, callId: string, requested: bool, reason: string, includeNew: bool)
    : (net': Net)
    requires NetShape(net) && callId in net.calls && forall k :: k in net.agents.keys ==> net.agents.Has(k)
    ensures callId in net'.calls && net'.calls[callId].callId == callId
  {
    var offered := if requested then RefreshBids(env, net, callId, net.agents.keys, reason, includeNew) else net;
    var agents := if requested then Refreshed(net, callId, includeNew) else {};
    SetCall(offered,
      offered.calls[callId].(refresh := Refresh(requested, includeNew, requested && agents != {}, agents)))
  }

  function Announce(env: Env, net: Net, a: Announcement, defaultBusyPenalty: real): Outcome<CallSnapshot>
    requires NetShape(net) && forall k :: k in net.agents.keys ==> net.agents.Has(k)
  {
    if BlankTask(a.taskId) then Outcome(net, Err(EmptyTask))
    else
      var posted := SetCall(Tick(net), NewCall(env, net, a, defaultBusyPenalty));
      var filled := if a.autoBid then RefreshCall(env, posted, a.callId, true, "auto", true) else posted;
      var snapshot := Snapshot(filled.calls[a.callId]);
      Outcome(Emit(filled, CallAnnounced(env.clock(net.ticks), snapshot)), Ok(snapshot))
  }

  function PlaceBid(env: Env, net: Net, callId: string, agentId: string, cost: real, data: string)
    : Outcome<CallSnapshot>
    requires NetShape(net)
  {
    if callId !in net.calls then Outcome(net, Err(UnknownCall))
    else if net.calls[callId].status != Open then Outcome(net, Err(NotOpen))
    else if !net.agents.Has(agentId) then Outcome(net, Err(UnknownAgent))
    else if cost < 0.0 then Outcome(net, Err(BadCost))
    else
      var net' := RecordBid(env, net, callId, agentId, cost, Supplied(data), Manual);
      Outcome(net', Ok(Snapshot(net'.calls[callId])))
  }

  function UpdateBounds(env: Env, net: Net, callId: string, bounds: Option<Bounds>, refreshAutoBids: bool,
    includeNew: bool)
    : Outcome<CallSnapshot>
    requires NetShape(net) && forall k :: k in net.agents.keys ==> net.agents.Has(k)
  {
    if callId !in net.calls then Outcome(net, Err(UnknownCall))
    else if net.calls[callId].status != Open then Outcome(net, Err(NotOpen))
    else
      var bounded := SetCall(net, net.calls[callId].(bounds := bounds));
      var filled := RefreshCall(
        env, bounded, callId, net.calls[callId].autoBid && refreshAutoBids, "auto_refresh", includeNew);
      var snapshot := Snapshot(filled.calls[callId]);
      Outcome(
        Emit(Tick(filled),
          BoundsUpdated(env.clock(filled.ticks), snapshot, snapshot.bounds, filled.calls[callId].refresh)),
        Ok(snapshot))
  }

  /** The bid an award goes to. An empty preferred identifier counts as none. */
  function Chosen(env: Env, net: Net, call: Call, preferred: string): Result<Bid, NetError>
    requires call.bids.Valid()
  {
    if preferred != "" then
      if call.bids.Has(preferred) then Ok(call.bids.rows[preferred]) else Err(NoSuchBid)
    else if call.bids.keys == [] then Err(NoBids)
    else Ok(call.bids.rows[Best(env, net.busy, call, call.bids.keys)])
  }

  /** The call goes to `bid`; the busy count rises before the decision is drawn up. */
  function Grant(env: Env, net: Net, call: Call, bid: Bid): Outcome<Decision> {
    var awarded := call.(awarded := Some(bid), status := Awarded, awardedAt := Some(env.clock(net.ticks)));
    var busy := net.busy[bid.agentId := BusyOf(net.busy, bid.agentId) + 1];
    var net' := Tick(net).(calls := net.calls[call.callId := awarded], busy := busy);
    var decision := Decide(env, busy, awarded, bid, 0);
    Outcome(Emit(net', CallAwarded(env.clock(net.ticks), Snapshot(awarded), decision)), Ok(decision))
  }

  function Award(env: Env, net: Net, callId: string, preferred: string): Outcome<Decision>
    requires forall id :: id in net.calls ==> net.calls[id].bids.Valid()
  {
    if callId !in net.calls then Outcome(net, Err(UnknownCall))
    else
      var call := net.calls[callId];
      if call.status == Completed && call.awarded.None? then Outcome(net, Err(NotAwarded))
      else if call.awarded.Some? then
        if call.status != Completed && preferred != "" && call.awarded.value.agentId != preferred then
          Outcome(net, Err(AlreadyAwarded))
        else if call.awardedAt.Some? then
          Outcome(net, Ok(Decide(env, net.busy, call, call.awarded.value, 0)))
        else Outcome(Tick(net), Ok(Decide(env, net.busy, call, call.awarded.value, env.clock(net.ticks))))
      else
        match Chosen(env, net, call, preferred)
        case Err(error) => Outcome(net, Err(error))
        case Ok(bid) => Grant(env, net, call, bid)
  }

  function Complete(env: Env, net: Net, callId: string): Outcome<CallSnapshot> {
    if callId !in net.calls then Outcome(net, Err(UnknownCall))
    else
      var call := net.calls[callId];
      if call.awarded.None? then Outcome(net, Err(NotAwarded))
      else if call.status == Completed then Outcome(net, Ok(Snapshot(call)))
      else
        var agentId := call.awarded.value.agentId;
        var completed := call.(status := Completed);
        var current := BusyOf(net.busy, agentId);
        var net' := Tick(net).(calls := net.calls[callId := completed],
                               busy := net.busy[agentId := if current == 0 then 0 else current - 1]);
        Outcome(Emit(net', CallCompleted(env.clock(net.ticks), Snapshot(completed))), Ok(Snapshot(completed)))
  }
}
