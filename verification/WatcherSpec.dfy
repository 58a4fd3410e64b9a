/**
 The watcher that carries the bounds of the stigmergic field over to the open Contract-Net calls
 (src/coord/contractNetWatchers.ts), together with the field and the coordinator it joins.
 */
module WatcherSpec {
  import opened Outcomes
  import opened JsMaps
  import ContractNetSpec
  import OpenCalls
  import ContractNetProofs
  import StigmergySpec
  import StigmergyProofs

  type Net = ContractNetSpec.Net
  type Bounds = ContractNetSpec.Bounds
  type Field = StigmergySpec.Field
  type Totals = JsMap<StigmergySpec.Total>

  /**
   The fixed parts; `windowMs` is the coalescing window.
   */
  datatype Config = Config(
    fieldEnv: StigmergySpec.Env, limits: StigmergySpec.Limits, defaultHalfLife: Option<real>,
    netEnv: ContractNetSpec.Env, penalty: real,
    refreshAutoBids: bool, includeNewAgents: bool, windowMs: real)

  /** The variables of the closure. `attached` tells whether the listener is still subscribed. */
  datatype Watch = Watch(
    lastBounds: Bounds, timer: bool, dirty: bool, attached: bool,
    received: nat, coalesced: nat, skipped: nat, applied: nat, flushes: nat)

  /** `covered` holds the calls that were open when the watcher last refreshed. */
  datatype World = World(field: Field, watch: Watch, net: Net, covered: set<string>)

  /** `localeCompare` puts a total order on identifiers. */
  ghost predicate Ordered(c: Config) {
    ContractNetSpec.TotalOrder(c.netEnv.before)
  }

  /** `captureBounds`, while the field holds `totals`. */
  function BoundsOf(limits: StigmergySpec.Limits, totals: Totals): Bounds
    requires forall i :: 0 <= i < |totals.keys| ==> totals.keys[i] in totals.rows
  {
    ContractNetSpec.Bounds(limits.min, limits.max,
      StigmergySpec.Ceiling(limits, StigmergySpec.Levels(totals, totals.keys)))
  }

  predicate AlmostEqual(a: real, b: real) {
    -0.000001 <= a - b <= 0.000001
  }

  predicate BoundsEqual(a: Bounds, b: Bounds) {
    && AlmostEqual(a.min, b.min)
    && ((a.max.None? && b.max.None?) || (a.max.Some? && b.max.Some? && AlmostEqual(a.max.value, b.max.value)))
    && AlmostEqual(a.ceiling, b.ceiling)
  }

  /** The bounds of the calls `ids` updated one after the other. */
  ghost function RefreshAll(c: Config, net: Net, ids: seq<string>, bounds: Bounds): (net': Net)
    requires ContractNetProofs.Inv(net)
    ensures ContractNetProofs.Inv(net')
    ensures ContractNetSpec.NetShape(net') && forall k :: k in net'.agents.keys ==> net'.agents.Has(k)
  {
    ContractNetProofs.InvParts(net);
    if ids == [] then net
    else
      var net' := RefreshAll(c, net, ids[..|ids| - 1], bounds);
      var updated := ContractNetSpec.UpdateBounds(c.netEnv, net', ids[|ids| - 1], Some(bounds), c.refreshAutoBids,
        c.includeNewAgents).net;
      ContractNetProofs.BoundsKeepInv(c.netEnv, net', ids[|ids| - 1], Some(bounds), c.refreshAutoBids,
        c.includeNewAgents);
      ContractNetProofs.InvParts(updated);
      updated
  }

  /** Every open call is given `bounds`; the refresh counts as applied if there was one. */
  ghost function RefreshOpenCalls(c: Config, x: World, bounds: Bounds): World
    requires ContractNetProofs.Inv(x.net)
  {
    var ids := OpenCalls.ListOpenCalls(c.netEnv, x.net);
    x.(net := RefreshAll(c, x.net, ids, bounds),
       watch := x.watch.(applied := x.watch.applied + (if ids == [] then 0 else 1)),
       covered := set id | id in ids)
  }

  /** `totals` are those the field holds at this moment. */
  ghost function Flush(c: Config, x: World, totals: Totals): World
    requires ContractNetProofs.Inv(x.net) && totals.Valid()
  {
    if !x.watch.dirty then x
    else
      var clean := x.watch.(dirty := false);
      var bounds := BoundsOf(c.limits, totals);
      if BoundsEqual(bounds, x.watch.lastBounds) then x.(watch := clean.(skipped := clean.skipped + 1))
      else RefreshOpenCalls(c, x.(watch := clean.(lastBounds := bounds, flushes := clean.flushes + 1)), bounds)
  }

  /** The listener, called while the field holds `totals`. */
  ghost function Listen(c: Config, x: World, totals: Totals): World
    requires ContractNetProofs.Inv(x.net) && totals.Valid()
  {
    var marked := x.(watch := x.watch.(received := x.watch.received + 1, dirty := true));
    if c.windowMs == 0.0 then Flush(c, marked, totals)
    else if x.watch.timer then marked.(watch := marked.watch.(coalesced := x.watch.coalesced + 1))
    else marked.(watch := marked.watch.(timer := true))
  }

  /** The timer callback. */
  ghost function Fire(c: Config, x: World): World
    requires ContractNetProofs.Inv(x.net) && x.field.totals.Valid()
  {
    Flush(c, x.(watch := x.watch.(timer := false)), x.field.totals)
  }

  /** The function returned to the caller. */
  ghost function Detach(c: Config, x: World): World
    requires ContractNetProofs.Inv(x.net) && x.field.totals.Valid()
  {
    Flush(c, x.(watch := x.watch.(attached := false, timer := false)), x.field.totals)
  }

  /** Subscribing first brings the calls already open up to date. */
  ghost function Attach(c: Config, field: Field, net: Net): World
    requires ContractNetProofs.Inv(net) && field.totals.Valid()
  {
    var bounds := BoundsOf(c.limits, field.totals);
    RefreshOpenCalls(c, World(field, Watch(bounds, false, false, true, 0, 0, 0, 0, 0), net, {}), bounds)
  }
}
