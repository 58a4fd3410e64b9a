/**
 The joint system of field, watcher and coordinator over whole runs: no update is lost, the bounds carried over
 are fresh, and open calls have them.
 */
module WatcherProofs {
  import opened Outcomes
  import opened JsMaps
  import opened WatcherSpec
  import ContractNet
  import ContractNetSpec
  import OpenCalls
  import ContractNetProofs
  import Auction
  import StigmergySpec
  import StigmergyProofs
  import Stigmergy

  // ---------------------------------------------------------------------------------------------
  // Steps of the joint system
  // ---------------------------------------------------------------------------------------------

  /** Nobody but the watcher updates the bounds of calls. */
  datatype Op =
    | OnField(field: StigmergyProofs.Op)
    | OnTimer
    | OnDetach
    | OnNet(net: ContractNetProofs.Op)

  ghost predicate Tidy(x: World) {
    && ContractNetProofs.Inv(x.net)
    && x.field.entries.Valid() && x.field.totals.Valid()
  }

  ghost predicate Possible(x: World, op: Op) {
    match op
    case OnField(_) => true
    case OnTimer => x.watch.timer
    case OnDetach => true
    case OnNet(netOp) => ContractNetProofs.Admissible(x.net, netOp) && !netOp.OpBounds?
  }

  ghost predicate Readable(emissions: seq<StigmergySpec.Emission>) {
    forall i :: 0 <= i < |emissions| ==> emissions[i].totals.Valid()
  }

  /** The listener hears the emissions in order. */
  ghost function Hear(c: Config, x: World, emissions: seq<StigmergySpec.Emission>): (x': World)
    requires ContractNetProofs.Inv(x.net) && Readable(emissions)
    ensures ContractNetProofs.Inv(x'.net) && x'.field == x.field
  {
    if emissions == [] then x
    else
      assert Readable(emissions[..|emissions| - 1]);
      Listen(c, Hear(c, x, emissions[..|emissions| - 1]), emissions[|emissions| - 1].totals)
  }

  ghost function OnFieldStep(c: Config, x: World, op: StigmergyProofs.Op): World
    requires Tidy(x)
  {
    var field := StigmergyProofs.Step(c.fieldEnv, c.limits.max, c.defaultHalfLife, x.field, op);
    FieldStepEmits(c, x.field, op);
    var news := field.log[|x.field.log|..];
    (if x.watch.attached then Hear(c, x, news) else x).(field := field)
  }

  ghost function Step(c: Config, x: World, op: Op): World
    requires Tidy(x)
  {
    match op
    case OnField(fieldOp) => OnFieldStep(c, x, fieldOp)
    case OnTimer => Fire(c, x)
    case OnDetach => Detach(c, x)
    case OnNet(netOp) => x.(net := ContractNetProofs.Step(c.netEnv, c.penalty, x.net, netOp))
  }

  /** What a field operation emits, and that the last emission shows the totals it leaves. */
  lemma FieldStepEmits(c: Config, f: Field, op: StigmergyProofs.Op)
    requires f.entries.Valid() && f.totals.Valid()
    ensures var f' := StigmergyProofs.Step(c.fieldEnv, c.limits.max, c.defaultHalfLife, f, op);
            && f'.entries.Valid() && f'.totals.Valid()
            && StigmergyProofs.Extends(f.log, f.totals, f'.log, f'.totals)
            && Readable(f'.log[|f.log|..])
  {
    hide StigmergySpec.ApplyMutation, StigmergySpec.EvaporateKeys, StigmergySpec.StageMarks, StigmergySpec.AnnounceAll;
    match op
    case OpMark(m) =>
      if StigmergySpec.Payload(c.fieldEnv, m).Ok? {
        MutationIsValid(c.limits.max, f, m.nodeId, StigmergySpec.Payload(c.fieldEnv, m).value, m.intensity,
          c.fieldEnv.clock(f.ticks));
      }
    case OpBatch(marks) =>
      BatchEmits(c.fieldEnv, c.limits.max, f, marks);
    case OpEvaporate(halfLifeMs) =>
      var h := StigmergySpec.HalfLife(halfLifeMs, c.defaultHalfLife);
      if h.Ok? {
        var timed := f.(ticks := f.ticks + 1);
        StigmergyProofs.EvaporateStaysValid(c.fieldEnv, c.limits.max, h.value, timed, f.entries.keys,
          c.fieldEnv.clock(f.ticks));
        StigmergyProofs.QuietIff(c.fieldEnv, c.limits.max, h.value, timed, f.entries.keys, c.fieldEnv.clock(f.ticks));
        EvaporatedTotals(c.fieldEnv, c.limits.max, h.value, timed, f.entries.keys, c.fieldEnv.clock(f.ticks));
      }
  }

  lemma BatchEmits(env: StigmergySpec.Env, max: Option<real>, f: Field, marks: seq<StigmergySpec.Mark>)
    requires f.entries.Valid() && f.totals.Valid()
    ensures var f' := StigmergySpec.BatchMark(env, max, f, marks).0;
            && f'.entries.Valid() && f'.totals.Valid()
            && StigmergyProofs.Extends(f.log, f.totals, f'.log, f'.totals)
            && Readable(f'.log[|f.log|..])
  {
    hide StigmergySpec.StageMarks, StigmergySpec.AnnounceAll, JsMap.Valid;
    StageIsValid(env, max, f, marks);
    var s := StigmergySpec.StageMarks(env, max, f, marks);
    StigmergyProofs.AnnouncedAfter(s.field, s.changes);
    StagedTotals(env, max, f, marks);
    var f' := StigmergySpec.BatchMark(env, max, f, marks).0;
    if s.failed.None? {
      forall i | 0 <= i < |s.changes| ensures f'.log[|f.log|..][i].totals == f'.totals {
        assert f'.log[|f.log| + i] == StigmergySpec.Emission(s.changes[i], f'.totals);
      }
      if s.changes != [] {
        assert f'.log[|f'.log| - 1] == f'.log[|f.log|..][|s.changes| - 1];
      }
    }
  }

  lemma MutationIsValid(max: Option<real>, f: Field, nodeId: string, kind: string, delta: real, t: int)
    requires f.entries.Valid() && f.totals.Valid()
    ensures var f' := StigmergySpec.ApplyMutation(max, f, nodeId, kind, delta, t);
            f'.entries.Valid() && f'.totals.Valid() && f'.log == f.log && f'.ticks == f.ticks
  {
  }

  lemma {:induction false} StageIsValid(env: StigmergySpec.Env, max: Option<real>, f: Field,
    marks: seq<StigmergySpec.Mark>)
    requires f.entries.Valid() && f.totals.Valid()
    ensures var s := StigmergySpec.StageMarks(env, max, f, marks);
            s.field.entries.Valid() && s.field.totals.Valid() && s.field.log == f.log
  {
    hide StigmergySpec.ApplyMutation;
    if marks != [] {
      var front, m := marks[..|marks| - 1], marks[|marks| - 1];
      StageIsValid(env, max, f, front);
      var s := StigmergySpec.StageMarks(env, max, f, front);
      if s.failed.None? && StigmergySpec.Payload(env, m).Ok? {
        MutationIsValid(max, s.field, m.nodeId, StigmergySpec.Payload(env, m).value, m.intensity,
          env.clock(s.field.ticks));
      }
    }
  }

  /** A batch that stages no event has staged nothing. */
  lemma {:induction false} StagedTotals(env: StigmergySpec.Env, max: Option<real>, f: Field,
    marks: seq<StigmergySpec.Mark>)
    ensures var s := StigmergySpec.StageMarks(env, max, f, marks);
            s.failed.None? && s.changes == [] ==> s.field == f
  {
    hide StigmergySpec.Place, StigmergySpec.Point;
    if marks != [] {
      StagedTotals(env, max, f, marks[..|marks| - 1]);
    }
  }

  lemma {:induction false} EvaporatedTotals(env: StigmergySpec.Env, max: Option<real>, h: real, f: Field,
    keys: seq<string>, t: int)
    requires h > 0.0 && (forall k :: k in keys ==> f.entries.Has(k)) && StigmergyProofs.Distinct(keys)
      && f.totals.Valid()
    ensures var f' := StigmergySpec.EvaporateKeys(env, max, h, f, keys, t);
            f'.totals.Valid() && |f'.log| >= |f.log| && forall i :: |f.log| <= i < |f'.log| ==> f'.log[i].totals.Valid()
  {
    hide StigmergySpec.Negligible, StigmergySpec.Decayed, JsMap.Valid, StigmergySpec.Settle;
    if keys != [] {
      var front, last := keys[..|keys| - 1], keys[|keys| - 1];
      assert keys == front + [last] && last !in front;
      EvaporatedTotals(env, max, h, f, front, t);
      assert f.entries.Has(last);
    }
  }

  lemma StepKeepsTidy(c: Config, x: World, op: Op)
    requires Tidy(x) && Possible(x, op)
    ensures Tidy(Step(c, x, op))
  {
    hide ContractNetProofs.Inv, JsMap.Valid, StigmergyProofs.Step, ContractNetProofs.Step;
    match op
    case OnField(fieldOp) => FieldStepEmits(c, x.field, fieldOp);
    case OnTimer =>
    case OnDetach =>
    case OnNet(netOp) => ContractNetProofs.StepKeepsInv(c.netEnv, c.penalty, x.net, netOp);
  }

  ghost predicate PossibleRun(c: Config, x: World, ops: seq<Op>)
    requires Tidy(x)
    decreases |ops|
  {
    ops == [] ||
    (Possible(x, ops[0]) && (
       StepKeepsTidy(c, x, ops[0]);
       PossibleRun(c, Step(c, x, ops[0]), ops[1..])))
  }

  ghost function Run(c: Config, x: World, ops: seq<Op>): (x': World)
    requires Tidy(x) && PossibleRun(c, x, ops)
    ensures Tidy(x')
    decreases |ops|
  {
    if ops == [] then x
    else
      StepKeepsTidy(c, x, ops[0]);
      Run(c, Step(c, x, ops[0]), ops[1..])
  }

  // ---------------------------------------------------------------------------------------------
  // Refreshing the open calls
  // ---------------------------------------------------------------------------------------------

  /** An update of one open call gives it the bounds and leaves the other calls alone. */
  lemma UpdateTouchesOne(c: Config, net: Net, callId: string, bounds: Bounds)
    requires ContractNetProofs.Inv(net) && ContractNetSpec.NetShape(net)
      && forall k :: k in net.agents.keys ==> net.agents.Has(k)
    requires callId in net.calls && net.calls[callId].status == ContractNetSpec.Open
    ensures var net' := ContractNetSpec.UpdateBounds(c.netEnv, net, callId, Some(bounds), c.refreshAutoBids,
      c.includeNewAgents).net;
            && net'.calls.Keys == net.calls.Keys
            && (forall id :: id in net.calls && id != callId ==> net'.calls[id] == net.calls[id])
            && net'.calls[callId].bounds == Some(bounds) && net'.calls[callId].status == ContractNetSpec.Open
  {
    hide ContractNetProofs.Inv, ContractNetSpec.RefreshBids, ContractNetSpec.Refreshed;
    var bounded := ContractNetSpec.SetCall(net, net.calls[callId].(bounds := Some(bounds)));
    if net.calls[callId].autoBid && c.refreshAutoBids {
      ContractNet.RefreshKeepsOthers(c.netEnv, bounded, callId, bounded.agents.keys, "auto_refresh",
        c.includeNewAgents);
    }
  }

  /** All the listed calls have the bounds afterwards; the others are as they were. */
  lemma {:induction false} RefreshAllReaches(c: Config, net: Net, ids: seq<string>, bounds: Bounds)
    requires ContractNetProofs.Inv(net) && StigmergyProofs.Distinct(ids)
    requires forall id :: id in ids ==> id in net.calls && net.calls[id].status == ContractNetSpec.Open
    ensures var net' := RefreshAll(c, net, ids, bounds);
            && net'.calls.Keys == net.calls.Keys
            && (forall id :: id in ids ==>
              net'.calls[id].bounds == Some(bounds) && net'.calls[id].status == ContractNetSpec.Open)
            && (forall id :: id in net.calls && id !in ids ==> net'.calls[id] == net.calls[id])
  {
    hide ContractNetProofs.Inv, ContractNetSpec.UpdateBounds;
    if ids != [] {
      var front, last := ids[..|ids| - 1], ids[|ids| - 1];
      assert ids == front + [last] && last !in front;
      RefreshAllReaches(c, net, front, bounds);
      var net' := RefreshAll(c, net, front, bounds);
      assert net'.calls[last] == net.calls[last];
      UpdateTouchesOne(c, net', last, bounds);
    }
  }

  /** A refresh lists exactly the open calls, so it applies whenever one is open, and every one of
      them gets the bounds. */
  lemma RefreshReachesOpenCalls(c: Config, x: World, bounds: Bounds)
    requires ContractNetProofs.Inv(x.net) && Ordered(c)
    ensures var x' := RefreshOpenCalls(c, x, bounds);
            && x'.covered == (set id | id in x.net.calls && x.net.calls[id].status == ContractNetSpec.Open)
            && x'.watch == x.watch.(applied := x.watch.applied + (if x'.covered == {} then 0 else 1))
            && x'.net.calls.Keys == x.net.calls.Keys
            && (forall id :: id in x.net.calls ==> x'.net.calls[id].status == x.net.calls[id].status)
            && (forall id :: id in x'.covered ==> x'.net.calls[id].bounds == Some(bounds))
            && (forall id :: id in x.net.calls && id !in x'.covered ==> x'.net.calls[id] == x.net.calls[id])
  {
    hide ContractNetProofs.Inv, RefreshAll;
    var ids := OpenCalls.ListOpenCalls(c.netEnv, x.net);
    OpenCalls.ListingIsTheSorting(c.netEnv, x.net, ids);
    RefreshAllReaches(c, x.net, ids, bounds);
    if ids != [] {
      assert ids[0] in RefreshOpenCalls(c, x, bounds).covered;
    }
  }

  // ---------------------------------------------------------------------------------------------
  // What every step keeps
  // ---------------------------------------------------------------------------------------------

  /** Each update received was coalesced, flushed, skipped, or is the one pending. */
  predicate Balanced(c: Config, w: Watch) {
    && w.received == w.coalesced + w.flushes + w.skipped + (if w.dirty then 1 else 0)
    && (c.windowMs == 0.0 ==> w.coalesced == 0)
  }

  /** An update is pending exactly while the timer runs, never after detaching, and never without a window. */
  predicate Settled(c: Config, w: Watch) {
    && (w.timer <==> w.dirty)
    && (!w.attached || c.windowMs == 0.0 ==> !w.dirty)
  }

  ghost predicate Covers(x: World) {
    forall id :: id in x.covered ==>
      id in x.net.calls && (x.net.calls[id].status == ContractNetSpec.Open ==>
        x.net.calls[id].bounds == Some(x.watch.lastBounds))
  }

  /** The last bounds have the limits of the field. */
  predicate Anchored(c: Config, w: Watch) {
    w.lastBounds.min == c.limits.min && w.lastBounds.max == c.limits.max
  }

  /** The ceiling of the field while it holds `totals`. */
  function CeilingOf(c: Config, totals: Totals): real
    requires forall i :: 0 <= i < |totals.keys| ==> totals.keys[i] in totals.rows
  {
    StigmergySpec.Ceiling(c.limits, StigmergySpec.Levels(totals, totals.keys))
  }

  /** The last bounds are those of the field, but for a millionth of an intensity at the ceiling. */
  ghost predicate Near(c: Config, w: Watch, totals: Totals)
    requires totals.Valid()
  {
    Anchored(c, w) && -0.000001 <= w.lastBounds.ceiling - CeilingOf(c, totals) <= 0.000001
  }

  /** Under a fixed maximum the bounds never move. */
  predicate Fixed(c: Config, w: Watch) {
    c.limits.max.Some? ==>
      w.flushes == 0 && w.lastBounds == ContractNetSpec.Bounds(c.limits.min, c.limits.max, c.limits.max.value)
  }

  ghost predicate Kept(c: Config, x: World) {
    Balanced(c, x.watch) && Covers(x) && Fixed(c, x.watch) && Anchored(c, x.watch)
  }

  ghost predicate Good(c: Config, x: World)
    requires Tidy(x)
  {
    && Kept(c, x) && Settled(c, x.watch)
    && (x.watch.attached && !x.watch.dirty ==> Near(c, x.watch, x.field.totals))
  }

  lemma RefreshCovers(c: Config, x: World, bounds: Bounds)
    requires ContractNetProofs.Inv(x.net) && Ordered(c) && x.watch.lastBounds == bounds
    ensures var x' := RefreshOpenCalls(c, x, bounds);
            Covers(x') && x'.watch == x.watch.(applied := x'.watch.applied)
  {
    hide ContractNetProofs.Inv;
    RefreshReachesOpenCalls(c, x, bounds);
  }

  /** After a flush nothing is pending, and if something was, the bounds are near those of the field. */
  lemma FlushKeeps(c: Config, x: World, totals: Totals)
    requires ContractNetProofs.Inv(x.net) && totals.Valid() && Ordered(c) && Kept(c, x)
    ensures var x' := Flush(c, x, totals);
            && ContractNetProofs.Inv(x'.net) && x'.field == x.field
            && Kept(c, x') && !x'.watch.dirty && x'.watch.timer == x.watch.timer
              && x'.watch.attached == x.watch.attached
            && (if x.watch.dirty then Near(c, x'.watch, totals) else x' == x)
  {
    hide ContractNetProofs.Inv, RefreshOpenCalls, StigmergySpec.Levels;
    if x.watch.dirty {
      var bounds := BoundsOf(c.limits, totals);
      assert BoundsEqual(bounds, bounds);
      if !BoundsEqual(bounds, x.watch.lastBounds) {
        var clean := x.watch.(dirty := false);
        var y := x.(watch := clean.(lastBounds := bounds, flushes := clean.flushes + 1));
        RefreshCovers(c, y, bounds);
        RefreshKeepsInv(c, y, bounds);
      }
    }
  }

  lemma RefreshKeepsInv(c: Config, x: World, bounds: Bounds)
    requires ContractNetProofs.Inv(x.net)
    ensures var x' := RefreshOpenCalls(c, x, bounds); ContractNetProofs.Inv(x'.net) && x'.field == x.field
  {
    hide ContractNetProofs.Inv;
  }

  lemma ListenKeeps(c: Config, x: World, totals: Totals)
    requires ContractNetProofs.Inv(x.net) && totals.Valid() && Ordered(c)
    requires Kept(c, x) && Settled(c, x.watch) && x.watch.attached
    ensures var x' := Listen(c, x, totals);
            && ContractNetProofs.Inv(x'.net) && Kept(c, x') && Settled(c, x'.watch) && x'.watch.attached
            && (!x'.watch.dirty ==> Near(c, x'.watch, totals))
  {
    hide ContractNetProofs.Inv, Flush, Near;
    if c.windowMs == 0.0 {
      var marked := x.(watch := x.watch.(received := x.watch.received + 1, dirty := true));
      assert Covers(marked);
      FlushKeeps(c, marked, totals);
    }
  }

  lemma {:induction false} HearKeeps(c: Config, x: World, emissions: seq<StigmergySpec.Emission>)
    requires ContractNetProofs.Inv(x.net) && Readable(emissions) && Ordered(c)
    requires Kept(c, x) && Settled(c, x.watch) && x.watch.attached
    ensures var x' := Hear(c, x, emissions);
            && Kept(c, x') && Settled(c, x'.watch) && x'.watch.attached
            && (emissions != [] && !x'.watch.dirty ==> Near(c, x'.watch, emissions[|emissions| - 1].totals))
            && (emissions == [] ==> x' == x)
  {
    hide ContractNetProofs.Inv, Listen, Near, Kept, Settled;
    if emissions != [] {
      assert Readable(emissions[..|emissions| - 1]);
      HearKeeps(c, x, emissions[..|emissions| - 1]);
      ListenKeeps(c, Hear(c, x, emissions[..|emissions| - 1]), emissions[|emissions| - 1].totals);
    }
  }

  /** Operations other than bounds updates leave the bounds of every call alone. */
  lemma NetStepKeepsBounds(env: ContractNetSpec.Env, penalty: real, net: Net, op: ContractNetProofs.Op)
    requires ContractNetProofs.Inv(net) && ContractNetProofs.Admissible(net, op) && !op.OpBounds?
    ensures var net' := ContractNetProofs.Step(env, penalty, net, op);
            forall id :: id in net.calls ==> id in net'.calls && net'.calls[id].bounds == net.calls[id].bounds
  {
    hide ContractNetSpec.Chosen, ContractNetSpec.EffectiveCost, ContractNetSpec.RefreshBids, ContractNetSpec.Refreshed,
      ContractNetSpec.BlankTask, ContractNetSpec.NormaliseHeuristics, ContractNetProofs.CallInv;
    if op.OpAnnounce? {
      AnnounceKeepsBounds(env, penalty, net, op.announcement);
    } else {
      hide ContractNetProofs.Inv;
      ContractNetProofs.InvParts(net);
    }
  }

  lemma AnnounceKeepsBounds(
    env: ContractNetSpec.Env, penalty: real, net: Net, a: ContractNetSpec.Announcement)
    requires ContractNetProofs.Inv(net) && a.callId !in net.calls
    ensures var net' := ContractNetSpec.Announce(env, net, a, penalty).net;
            forall id :: id in net.calls ==> id in net'.calls && net'.calls[id].bounds == net.calls[id].bounds
  {
    hide ContractNetSpec.RefreshBids, ContractNetSpec.Refreshed, ContractNetSpec.BlankTask,
      ContractNetSpec.NormaliseHeuristics, ContractNetProofs.CallInv;
    var posted := ContractNetSpec.SetCall(ContractNetSpec.Tick(net), ContractNetSpec.NewCall(env, net, a, penalty));
    ContractNet.RefreshKeepsOthers(env, posted, a.callId, posted.agents.keys, "auto", true);
  }

  lemma NetStepKeepsCovers(c: Config, x: World, op: ContractNetProofs.Op)
    requires Tidy(x) && Covers(x) && ContractNetProofs.Admissible(x.net, op) && !op.OpBounds?
    ensures Covers(x.(net := ContractNetProofs.Step(c.netEnv, c.penalty, x.net, op)))
  {
    hide ContractNetProofs.Inv, ContractNetProofs.Step;
    NetStepKeepsBounds(c.netEnv, c.penalty, x.net, op);
    ContractNetProofs.StepProgresses(c.netEnv, c.penalty, x.net, op);
  }

  lemma StepKeepsGood(c: Config, x: World, op: Op)
    requires Tidy(x) && Good(c, x) && Possible(x, op) && Ordered(c)
    ensures Tidy(Step(c, x, op)) && Good(c, Step(c, x, op))
  {
    hide ContractNetProofs.Inv, JsMap.Valid, StigmergyProofs.Step, ContractNetProofs.Step, Flush, Near, Hear, Covers;
    StepKeepsTidy(c, x, op);
    match op
    case OnField(fieldOp) =>
      FieldStepEmits(c, x.field, fieldOp);
      if x.watch.attached {
        var field := StigmergyProofs.Step(c.fieldEnv, c.limits.max, c.defaultHalfLife, x.field, fieldOp);
        HearKeeps(c, x, field.log[|x.field.log|..]);
        CoversIgnoresField(Hear(c, x, field.log[|x.field.log|..]), field);
      } else {
        CoversIgnoresField(x, StigmergyProofs.Step(c.fieldEnv, c.limits.max, c.defaultHalfLife, x.field, fieldOp));
      }
    case OnTimer =>
      var y := x.(watch := x.watch.(timer := false));
      CoversSame(x, y);
      FlushKeeps(c, y, x.field.totals);
    case OnDetach =>
      var y := x.(watch := x.watch.(attached := false, timer := false));
      CoversSame(x, y);
      FlushKeeps(c, y, x.field.totals);
    case OnNet(netOp) =>
      NetStepKeepsCovers(c, x, netOp);
  }

  lemma CoversSame(x: World, y: World)
    requires Covers(x) && y.net == x.net && y.covered == x.covered && y.watch.lastBounds == x.watch.lastBounds
    ensures Covers(y)
  {
  }

  lemma CoversIgnoresField(x: World, field: Field)
    requires Covers(x)
    ensures Covers(x.(field := field))
  {
  }

  lemma AttachIsGood(c: Config, field: Field, net: Net)
    requires ContractNetProofs.Inv(net) && field.entries.Valid() && field.totals.Valid() && Ordered(c)
    ensures var x := Attach(c, field, net); Tidy(x) && Good(c, x)
  {
    hide ContractNetProofs.Inv, RefreshOpenCalls, StigmergySpec.Levels;
    var bounds := BoundsOf(c.limits, field.totals);
    var y := World(field, Watch(bounds, false, false, true, 0, 0, 0, 0, 0), net, {});
    RefreshCovers(c, y, bounds);
    RefreshKeepsInv(c, y, bounds);
  }

  // ---------------------------------------------------------------------------------------------
  // Whole runs
  // ---------------------------------------------------------------------------------------------

  lemma {:induction false} RunKeepsGood(c: Config, x: World, ops: seq<Op>)
    requires Tidy(x) && Good(c, x) && PossibleRun(c, x, ops) && Ordered(c)
    ensures Good(c, Run(c, x, ops))
    decreases |ops|
  {
    hide Good, Step, Possible, Tidy;
    if ops != [] {
      StepKeepsGood(c, x, ops[0]);
      RunKeepsGood(c, Step(c, x, ops[0]), ops[1..]);
    }
  }

  /**
   No update is lost: at every moment each one received has been coalesced, flushed or skipped, or is the one
   pending. Nothing is pending after detaching, and without a window nothing is ever coalesced.
   */
  lemma UpdatesAreAccounted(c: Config, field: Field, net: Net, ops: seq<Op>)
    requires ContractNetProofs.Inv(net) && field.entries.Valid() && field.totals.Valid() && Ordered(c)
    requires Tidy(Attach(c, field, net)) && PossibleRun(c, Attach(c, field, net), ops)
    ensures var w := Run(c, Attach(c, field, net), ops).watch;
            && w.received == w.coalesced + w.flushes + w.skipped + (if w.dirty then 1 else 0)
            && (w.dirty <==> w.timer)
            && (!w.attached ==> !w.dirty)
            && (c.windowMs == 0.0 ==> w.coalesced == 0 && !w.dirty)
  {
    hide Attach, Run, Tidy, PossibleRun;
    AttachIsGood(c, field, net);
    RunKeepsGood(c, Attach(c, field, net), ops);
  }

  /**
   The last bounds have the field's minimum and maximum, and whenever no update is pending their ceiling is within a
   millionth of what the field shows now, however many small changes were skipped; and every call that was open at the
   last refresh and is still open has exactly those bounds.
   */
  lemma BoundsAreFresh(c: Config, field: Field, net: Net, ops: seq<Op>, callId: string)
    requires ContractNetProofs.Inv(net) && field.entries.Valid() && field.totals.Valid() && Ordered(c)
    requires Tidy(Attach(c, field, net)) && PossibleRun(c, Attach(c, field, net), ops)
    ensures var x := Run(c, Attach(c, field, net), ops);
            && x.watch.lastBounds.min == c.limits.min && x.watch.lastBounds.max == c.limits.max
            && (x.watch.attached && !x.watch.dirty ==>
                  -0.000001 <= x.watch.lastBounds.ceiling - CeilingOf(c, x.field.totals) <= 0.000001)
            && (callId in x.covered ==>
                  callId in x.net.calls &&
                  (x.net.calls[callId].status == ContractNetSpec.Open ==>
                    x.net.calls[callId].bounds == Some(x.watch.lastBounds)))
  {
    hide Attach, Run, Tidy, PossibleRun, CeilingOf;
    AttachIsGood(c, field, net);
    RunKeepsGood(c, Attach(c, field, net), ops);
  }

  /**
   Told by the totals: while nothing is pending, a finite maximum is the ceiling; in an unbounded field no total is more
   than a millionth above it, and some total is no more than that below it, unless none exceeds the minimum: then the
   ceiling is one above that.
   */
  lemma CeilingFollowsTotals(c: Config, field: Field, net: Net, ops: seq<Op>, nodeId: string) returns (top: string)
    requires ContractNetProofs.Inv(net) && field.entries.Valid() && field.totals.Valid() && Ordered(c)
    requires Tidy(Attach(c, field, net)) && PossibleRun(c, Attach(c, field, net), ops)
    requires StigmergySpec.LimitsValid(c.limits)
    ensures var x := Run(c, Attach(c, field, net), ops);
            var ceiling, rows := x.watch.lastBounds.ceiling, x.field.totals.rows;
            x.watch.attached && !x.watch.dirty ==>
              && (c.limits.max.Some? ==> ceiling == c.limits.max.value)
              && (c.limits.max.None? && nodeId in rows ==> rows[nodeId].intensity <= ceiling + 0.000001)
              && (c.limits.max.None? && (top !in rows || rows[top].intensity < ceiling - 0.000001) ==>
                    && -0.000001 <= ceiling - (c.limits.min + 1.0) <= 0.000001
                    && (nodeId in rows ==> rows[nodeId].intensity <= c.limits.min))
  {
    hide Attach, Run, Tidy, PossibleRun;
    AttachIsGood(c, field, net);
    RunKeepsGood(c, Attach(c, field, net), ops);
    var x := Run(c, Attach(c, field, net), ops);
    var totals := x.field.totals;
    TotalsAreTidy(x);
    var levels := StigmergySpec.Levels(totals, totals.keys);
    top := "";
    if c.limits.max.None? {
      StigmergyProofs.CeilingIsHighest(c.limits, levels);
      if nodeId in totals.rows {
        var i :| 0 <= i < |totals.keys| && totals.keys[i] == nodeId;
        assert levels[i] == totals.rows[nodeId].intensity;
      }
      if StigmergySpec.Ceiling(c.limits, levels) in levels {
        var i :| 0 <= i < |levels| && levels[i] == StigmergySpec.Ceiling(c.limits, levels);
        top := totals.keys[i];
      }
    }
  }

  lemma TotalsAreTidy(x: World)
    requires Tidy(x)
    ensures x.field.totals.Valid()
  {
  }

  /**
   A flush with an update pending refreshes if and only if the ceiling has moved by more than a millionth since the
   last bounds; it then takes over the bounds of the field and gives them to every open call, and otherwise it leaves
   the calls alone. With nothing pending it does nothing.
   */
  lemma FlushRefreshesIff(c: Config, x: World, totals: Totals)
    requires ContractNetProofs.Inv(x.net) && totals.Valid() && Ordered(c) && Kept(c, x)
    ensures var x', ceiling := Flush(c, x, totals), CeilingOf(c, totals);
            var moved := ceiling - x.watch.lastBounds.ceiling < -0.000001
                         || ceiling - x.watch.lastBounds.ceiling > 0.000001;
            var latest := ContractNetSpec.Bounds(c.limits.min, c.limits.max, ceiling);
            && (!x.watch.dirty ==> x' == x)
            && (x.watch.dirty && moved ==>
                  && x'.watch.flushes == x.watch.flushes + 1 && x'.watch.skipped == x.watch.skipped
                  && x'.watch.lastBounds == latest && !x'.watch.dirty
                  && forall id :: id in x.net.calls && x.net.calls[id].status == ContractNetSpec.Open ==>
                       id in x'.net.calls && x'.net.calls[id].bounds == Some(latest))
            && (x.watch.dirty && !moved ==>
                  x' == x.(watch := x.watch.(dirty := false, skipped := x.watch.skipped + 1)))
  {
    hide ContractNetProofs.Inv, RefreshOpenCalls, StigmergySpec.Levels;
    var bounds := BoundsOf(c.limits, totals);
    if x.watch.dirty && !BoundsEqual(bounds, x.watch.lastBounds) {
      var clean := x.watch.(dirty := false);
      RefreshReachesOpenCalls(c, x.(watch := clean.(lastBounds := bounds, flushes := clean.flushes + 1)), bounds);
    }
  }

  /** Under a finite maximum no update ever leads to a refresh: all are coalesced or skipped. */
  lemma FixedMaximumNeverFlushes(c: Config, field: Field, net: Net, ops: seq<Op>)
    requires ContractNetProofs.Inv(net) && field.entries.Valid() && field.totals.Valid() && Ordered(c)
    requires Tidy(Attach(c, field, net)) && PossibleRun(c, Attach(c, field, net), ops) && c.limits.max.Some?
    ensures Run(c, Attach(c, field, net), ops).watch.flushes == 0
  {
    hide Attach, Run, Tidy, PossibleRun;
    AttachIsGood(c, field, net);
    RunKeepsGood(c, Attach(c, field, net), ops);
  }

  /** Detaching delivers the pending update first. */
  lemma DetachDelivers(c: Config, x: World)
    requires Tidy(x) && Good(c, x) && Ordered(c) && x.watch.attached
    ensures var x' := Detach(c, x);
            && !x'.watch.attached && !x'.watch.dirty && !x'.watch.timer && x'.field == x.field
            && x'.watch.lastBounds.min == c.limits.min && x'.watch.lastBounds.max == c.limits.max
            && -0.000001 <= x'.watch.lastBounds.ceiling - CeilingOf(c, x.field.totals) <= 0.000001
  {
    hide ContractNetProofs.Inv, Flush, CeilingOf;
    var y := x.(watch := x.watch.(attached := false, timer := false));
    CoversSame(x, y);
    FlushKeeps(c, y, x.field.totals);
    assert x.watch.dirty || Near(c, y.watch, x.field.totals) by {
      if !x.watch.dirty {
        NearSame(c, x.watch, y.watch, x.field.totals);
      }
    }
  }

  lemma NearSame(c: Config, w: Watch, w': Watch, totals: Totals)
    requires totals.Valid() && Near(c, w, totals) && w'.lastBounds == w.lastBounds
    ensures Near(c, w', totals)
  {
  }

  // ---------------------------------------------------------------------------------------------
  // Steps of the watcher in detail
  // ---------------------------------------------------------------------------------------------

  /** With a window an update only waits: it starts the timer, or joins the one that runs. */
  lemma WindowMakesUpdatesWait(c: Config, x: World, totals: Totals)
    requires ContractNetProofs.Inv(x.net) && totals.Valid() && c.windowMs > 0.0
    ensures var x' := Listen(c, x, totals);
            && x'.net == x.net && x'.covered == x.covered && x'.watch.dirty && x'.watch.timer
            && x'.watch.received == x.watch.received + 1
            && x'.watch.coalesced == x.watch.coalesced + (if x.watch.timer then 1 else 0)
            && x'.watch.flushes == x.watch.flushes && x'.watch.skipped == x.watch.skipped
            && x'.watch.lastBounds == x.watch.lastBounds
  {
    hide ContractNetProofs.Inv, Flush;
  }

  /** Without one an update is flushed at once. */
  lemma NoWindowMeansNoWait(c: Config, x: World, totals: Totals)
    requires ContractNetProofs.Inv(x.net) && totals.Valid() && c.windowMs == 0.0 && Ordered(c) && Kept(c, x)
    ensures var x' := Listen(c, x, totals);
            && !x'.watch.dirty && x'.watch.received == x.watch.received + 1
            && -0.000001 <= x'.watch.lastBounds.ceiling - CeilingOf(c, totals) <= 0.000001
  {
    hide ContractNetProofs.Inv, RefreshOpenCalls, StigmergySpec.Levels, CeilingOf, Fixed;
    var marked := x.(watch := x.watch.(received := x.watch.received + 1, dirty := true));
    var clean := marked.watch.(dirty := false);
    var bounds := BoundsOf(c.limits, totals);
    assert bounds.ceiling == CeilingOf(c, totals) by { CeilingIsCaptured(c, totals); }
    if !BoundsEqual(bounds, x.watch.lastBounds) {
      RefreshReachesOpenCalls(c, marked.(watch := clean.(lastBounds := bounds, flushes := clean.flushes + 1)), bounds);
    }
  }

  lemma CeilingIsCaptured(c: Config, totals: Totals)
    requires totals.Valid()
    ensures BoundsOf(c.limits, totals).ceiling == CeilingOf(c, totals)
  {
  }

  /** The call `id` is updated once, while it and the agents are as they were. */
  lemma {:induction false} RefreshAllUpdates(c: Config, net: Net, ids: seq<string>, bounds: Bounds, id: string)
    returns (mid: Net)
    requires ContractNetProofs.Inv(net) && StigmergyProofs.Distinct(ids) && id in ids
    requires forall k :: k in ids ==> k in net.calls && net.calls[k].status == ContractNetSpec.Open
    ensures ContractNetProofs.Inv(mid) && mid.agents == net.agents && id in mid.calls && mid.calls[id] == net.calls[id]
    ensures RefreshAll(c, net, ids, bounds).agents == net.agents && id in RefreshAll(c, net, ids, bounds).calls
    ensures RefreshAll(c, net, ids, bounds).calls[id] ==
              ContractNetSpec.UpdateBounds(
                c.netEnv, mid, id, Some(bounds), c.refreshAutoBids, c.includeNewAgents).net.calls[id]
  {
    hide ContractNetProofs.Inv, ContractNetSpec.UpdateBounds;
    var front, last := ids[..|ids| - 1], ids[|ids| - 1];
    assert ids == front + [last] && last !in front;
    RefreshAllReaches(c, net, front, bounds);
    var net' := RefreshAll(c, net, front, bounds);
    RefreshAllKeepsAgents(c, net, front, bounds);
    UpdateTouchesOne(c, net', last, bounds);
    UpdateKeepsAgents(c, net', last, bounds);
    if id == last {
      mid := net';
    } else {
      mid := RefreshAllUpdates(c, net, front, bounds, id);
    }
  }

  lemma UpdateKeepsAgents(c: Config, net: Net, id: string, bounds: Bounds)
    requires ContractNetProofs.Inv(net)
    ensures ContractNetSpec.NetShape(net) && (forall k :: k in net.agents.keys ==> net.agents.Has(k))
    ensures ContractNetSpec.UpdateBounds(
              c.netEnv, net, id, Some(bounds), c.refreshAutoBids, c.includeNewAgents).net.agents == net.agents
  {
    hide ContractNetSpec.RefreshBids, ContractNetSpec.Refreshed, ContractNetSpec.Snapshot;
  }

  lemma {:induction false} RefreshAllKeepsAgents(c: Config, net: Net, ids: seq<string>, bounds: Bounds)
    requires ContractNetProofs.Inv(net)
    ensures RefreshAll(c, net, ids, bounds).agents == net.agents
  {
    hide ContractNetProofs.Inv, ContractNetSpec.UpdateBounds;
    if ids != [] {
      RefreshAllKeepsAgents(c, net, ids[..|ids| - 1], bounds);
      UpdateKeepsAgents(c, RefreshAll(c, net, ids[..|ids| - 1], bounds), ids[|ids| - 1], bounds);
    }
  }

  /**
   A refresh renews the offers on each open call as the watcher was told to: of the agents with a heuristic bid there,
   and of those without a bid if newcomers are let in, provided the call takes automatic bids; all other bids stand.
   */
  lemma RefreshRenewsOffers(c: Config, x: World, bounds: Bounds, id: string, a: string)
    requires ContractNetProofs.Inv(x.net) && Ordered(c)
    requires id in x.net.calls && x.net.calls[id].status == ContractNetSpec.Open
    ensures var before, x' := x.net.calls[id], RefreshOpenCalls(c, x, bounds);
            && x'.net.agents == x.net.agents && id in x'.net.calls
            && var after := x'.net.calls[id];
            if before.autoBid && c.refreshAutoBids && x.net.agents.Has(a)
               && (if before.bids.Has(a) then before.bids.rows[a].kind == ContractNetSpec.Heuristic
                   else c.includeNewAgents)
            then
              && after.bids.Has(a)
              && Auction.Offer(c.netEnv, after.bids.rows[a], x.net.agents.rows[a], "auto_refresh", Some(bounds))
            else after.bids.Get(a) == before.bids.Get(a)
  {
    hide ContractNetProofs.Inv, RefreshAll, ContractNetSpec.UpdateBounds, Auction.Offer;
    var ids := OpenCalls.ListOpenCalls(c.netEnv, x.net);
    OpenCalls.ListingIsTheSorting(c.netEnv, x.net, ids);
    var mid := RefreshAllUpdates(c, x.net, ids, bounds, id);
    Auction.BoundsUpdateOffers(c.netEnv, mid, id, Some(bounds), c.refreshAutoBids, c.includeNewAgents, a);
  }
}
