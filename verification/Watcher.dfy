/**
 The watcher as an object (src/coord/contractNetWatchers.ts, lines 151-317): the variables of its closure are
 fields, and each of its inner functions is a method that takes the step of `WatcherSpec`.
 */
module Watcher {
  import opened Outcomes
  import opened JsMaps
  import opened WatcherSpec
  import ContractNet
  import ContractNetSpec
  import OpenCalls
  import ContractNetProofs
  import Stigmergy
  import StigmergySpec

  datatype WatcherError = BadWindow

  ghost function ConfigOf(
    field: Stigmergy.StigmergyField, contractNet: ContractNet.ContractNetCoordinator,
    refreshAutoBids: bool, includeNewAgents: bool, windowMs: real): Config
  {
    Config(field.env, field.limits, field.defaultHalfLifeMs, contractNet.env, contractNet.defaultBusyPenalty,
      refreshAutoBids, includeNewAgents, windowMs)
  }

  /** A negative window throws; otherwise the watcher is primed and subscribed. */
  method WatchContractNetPheromoneBounds(
    field: Stigmergy.StigmergyField, contractNet: ContractNet.ContractNetCoordinator,
    refreshAutoBids: bool, includeNewAgents: bool, coalesceWindowMs: real)
    returns (r: Result<BoundsWatcher, WatcherError>)
    requires ContractNetProofs.Inv(contractNet.Abs()) && field.Valid()
    requires ContractNetSpec.TotalOrder(contractNet.env.before)
    modifies contractNet
    ensures r.Ok? <==> coalesceWindowMs >= 0.0
    ensures r.Ok? ==> fresh(r.value) && r.value.field == field && r.value.contractNet == contractNet && r.value.Valid()
    ensures r.Ok? ==> r.value.Cfg() == ConfigOf(field, contractNet, refreshAutoBids, includeNewAgents, coalesceWindowMs)
    ensures r.Ok? ==> r.value.Abs() == Attach(r.value.Cfg(), old(field.Abs()), old(contractNet.Abs()))
    ensures r.Err? ==> contractNet.Abs() == old(contractNet.Abs())
  {
    if coalesceWindowMs < 0.0 {
      return Err(BadWindow);
    }
    var watcher := new BoundsWatcher(field, contractNet, refreshAutoBids, includeNewAgents, coalesceWindowMs);
    watcher.lastBounds := watcher.CaptureBounds();
    watcher.attached := true;
    watcher.RefreshOpenCalls(watcher.lastBounds);
    return Ok(watcher);
  }

  class BoundsWatcher {
    const field: Stigmergy.StigmergyField
    const contractNet: ContractNet.ContractNetCoordinator
    const refreshAutoBids: bool
    const includeNewAgents: bool
    const coalesceWindowMs: real
    var lastBounds: Bounds
    var flushTimer: bool
    var pendingDirty: bool
    var attached: bool
    var receivedUpdates: nat
    var coalescedUpdates: nat
    var skippedRefreshes: nat
    var appliedRefreshes: nat
    var flushes: nat
    ghost var covered: set<string>

    constructor (field: Stigmergy.StigmergyField, contractNet: ContractNet.ContractNetCoordinator,
                 refreshAutoBids: bool, includeNewAgents: bool, coalesceWindowMs: real)
      ensures this.field == field && this.contractNet == contractNet
      ensures this.refreshAutoBids == refreshAutoBids && this.includeNewAgents == includeNewAgents
      ensures this.coalesceWindowMs == coalesceWindowMs
      ensures !flushTimer && !pendingDirty && !attached && covered == {}
      ensures receivedUpdates == coalescedUpdates == skippedRefreshes == appliedRefreshes == flushes == 0
    {
      this.field, this.contractNet := field, contractNet;
      this.refreshAutoBids, this.includeNewAgents := refreshAutoBids, includeNewAgents;
      this.coalesceWindowMs := coalesceWindowMs;
      lastBounds := ContractNetSpec.Bounds(0.0, None, 0.0);
      flushTimer, pendingDirty, attached, covered := false, false, false, {};
      receivedUpdates, coalescedUpdates, skippedRefreshes, appliedRefreshes, flushes := 0, 0, 0, 0, 0;
    }

    /** Nothing in it ever changes. */
    ghost function Cfg(): Config {
      ConfigOf(field, contractNet, refreshAutoBids, includeNewAgents, coalesceWindowMs)
    }

    ghost function Abs(): World
      reads this, field, contractNet
    {
      World(field.Abs(),
        Watch(lastBounds, flushTimer, pendingDirty, attached,
              receivedUpdates, coalescedUpdates, skippedRefreshes, appliedRefreshes, flushes),
        contractNet.Abs(), covered)
    }

    ghost predicate Valid()
      reads this, field, contractNet
    {
      && field.Valid() && contractNet.Valid() && ContractNetProofs.Inv(contractNet.Abs())
      && ContractNetSpec.TotalOrder(contractNet.env.before)
    }

    method CaptureBounds() returns (bounds: Bounds)
      requires field.Valid()
      ensures bounds == BoundsOf(field.limits, field.totals)
    {
      var min, max, ceiling := field.GetIntensityBounds();
      bounds := ContractNetSpec.Bounds(min, max, ceiling);
    }

    /** No update fails: the calls listed are open and stay so. */
    method RefreshOpenCalls(bounds: Bounds)
      requires Valid()
      modifies this`appliedRefreshes, this`covered, contractNet
      ensures Valid() && Abs() == WatcherSpec.RefreshOpenCalls(Cfg(), old(Abs()), bounds)
    {
      hide ContractNetProofs.Inv, ContractNetSpec.UpdateBounds, ContractNetSpec.TotalOrder, OpenCalls.Listed,
        OpenCalls.ListOpenCalls, RefreshAll;
      var openCalls := contractNet.ListOpenCalls();
      ghost var net := contractNet.Abs();
      covered := set id | id in openCalls;
      if |openCalls| == 0 {
        assert openCalls == [];
        RefreshNone(Cfg(), net, bounds);
        return;
      }
      appliedRefreshes := appliedRefreshes + 1;
      RefreshNone(Cfg(), net, bounds);
      for n := 0 to |openCalls|
        invariant Valid()
        invariant contractNet.Abs() == RefreshAll(Cfg(), net, openCalls[..n], bounds)
        invariant appliedRefreshes == old(appliedRefreshes) + 1 && covered == set id | id in openCalls
      {
        RefreshOneMore(Cfg(), net, openCalls, n, bounds);
        var result := contractNet.UpdateCallPheromoneBounds(openCalls[n], Some(bounds), refreshAutoBids,
          includeNewAgents);
        assert ContractNetProofs.Inv(contractNet.Abs());
      }
      assert openCalls[..|openCalls|] == openCalls;
    }

    method Flush()
      requires Valid()
      modifies this, contractNet
      ensures Valid() && Abs() == WatcherSpec.Flush(Cfg(), old(Abs()), field.totals)
    {
      hide ContractNetProofs.Inv, WatcherSpec.RefreshOpenCalls, BoundsEqual, BoundsOf;
      var shouldProcess := pendingDirty;
      pendingDirty := false;
      if !shouldProcess {
        return;
      }
      var bounds := CaptureBounds();
      if BoundsEqual(bounds, lastBounds) {
        skippedRefreshes := skippedRefreshes + 1;
        return;
      }
      lastBounds := bounds;
      flushes := flushes + 1;
      RefreshOpenCalls(bounds);
    }

    method ScheduleRefresh()
      requires Valid()
      modifies this, contractNet
      ensures Valid()
      ensures var marked := old(Abs()).(watch := old(Abs()).watch.(dirty := true));
              Abs() ==
                if coalesceWindowMs == 0.0 then WatcherSpec.Flush(Cfg(), marked, field.totals)
                else if old(flushTimer) then marked.(watch := marked.watch.(coalesced := marked.watch.coalesced + 1))
                else marked.(watch := marked.watch.(timer := true))
    {
      hide ContractNetProofs.Inv, WatcherSpec.Flush;
      pendingDirty := true;
      if coalesceWindowMs == 0.0 {
        Flush();
        return;
      }
      if flushTimer {
        coalescedUpdates := coalescedUpdates + 1;
        return;
      }
      flushTimer := true;
    }

    method Listener()
      requires Valid()
      modifies this, contractNet
      ensures Valid() && Abs() == Listen(Cfg(), old(Abs()), field.totals)
    {
      hide ContractNetProofs.Inv, WatcherSpec.Flush;
      receivedUpdates := receivedUpdates + 1;
      ScheduleRefresh();
    }

    method TimerFires()
      requires Valid() && flushTimer
      modifies this, contractNet
      ensures Valid() && Abs() == Fire(Cfg(), old(Abs()))
    {
      hide ContractNetProofs.Inv, WatcherSpec.Flush;
      flushTimer := false;
      Flush();
    }

    method DetachWatcher()
      requires Valid()
      modifies this, contractNet
      ensures Valid() && Abs() == Detach(Cfg(), old(Abs()))
    {
      hide ContractNetProofs.Inv, WatcherSpec.Flush;
      attached := false;
      if flushTimer {
        flushTimer := false;
      }
      Flush();
    }
  }

  lemma RefreshNone(c: Config, net: Net, bounds: Bounds)
    requires ContractNetProofs.Inv(net)
    ensures RefreshAll(c, net, [], bounds) == net
  {
  }

  lemma RefreshOneMore(c: Config, net: Net, ids: seq<string>, n: nat, bounds: Bounds)
    requires ContractNetProofs.Inv(net) && n < |ids|
    ensures RefreshAll(c, net, ids[..n + 1], bounds) ==
              ContractNetSpec.UpdateBounds(
                c.netEnv, RefreshAll(c, net, ids[..n], bounds), ids[n],
                Some(bounds), c.refreshAutoBids, c.includeNewAgents).net
  {
    hide ContractNetProofs.Inv, ContractNetSpec.UpdateBounds;
    assert ids[..n + 1][..n] == ids[..n];
  }
}
