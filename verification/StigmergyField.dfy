/**
 The field class (src/coord/stigmergy.ts, lines 187-563): entries and totals are updated in place, and every
 method takes the step of `StigmergySpec`.
 */
module Stigmergy {
  import opened Outcomes
  import opened JsMaps
  import opened StigmergySpec

  /** The constructor, which throws on limits that make no sense. */
  method CreateField(env: Env, minIntensity: Option<real>, maxIntensity: Option<real>, defaultHalfLifeMs: Option<real>)
    returns (r: Result<StigmergyField, FieldError>)
    ensures r.Ok? <==>
              LimitsValid(Limits(minIntensity.GetOr(0.0), maxIntensity)) &&
              (defaultHalfLifeMs.Some? ==> defaultHalfLifeMs.value > 0.0)
    ensures r.Ok? ==> fresh(r.value) && r.value.Valid() && r.value.Abs() == BLANK && r.value.env == env
    ensures r.Ok? ==> r.value.limits == Limits(minIntensity.GetOr(0.0), maxIntensity)
    ensures r.Ok? ==> r.value.defaultHalfLifeMs == defaultHalfLifeMs
  {
    if defaultHalfLifeMs.Some? && defaultHalfLifeMs.value <= 0.0 {
      return Err(BadHalfLife);
    }
    if minIntensity.Some? && minIntensity.value < 0.0 {
      return Err(BadLimits);
    }
    if maxIntensity.Some? && maxIntensity.value <= 0.0 {
      return Err(BadLimits);
    }
    if maxIntensity.Some? && maxIntensity.value <= minIntensity.GetOr(0.0) {
      return Err(BadLimits);
    }
    var field := new StigmergyField(env, Limits(minIntensity.GetOr(0.0), maxIntensity), defaultHalfLifeMs);
    return Ok(field);
  }

  class StigmergyField {
    const env: Env
    const limits: Limits
    const defaultHalfLifeMs: Option<real>
    var entries: JsMap<Entry>
    var totals: JsMap<Total>
    var ticks: nat
    /** What listeners have received. */
    var log: seq<Emission>

    constructor (env: Env, limits: Limits, defaultHalfLifeMs: Option<real>)
      ensures this.env == env && this.limits == limits && this.defaultHalfLifeMs == defaultHalfLifeMs
      ensures Abs() == BLANK && Valid()
    {
      this.env, this.limits, this.defaultHalfLifeMs := env, limits, defaultHalfLifeMs;
      entries, totals, ticks, log := Empty(), Empty(), 0, [];
    }

    function Abs(): Field
      reads this
    {
      Field(entries, totals, ticks, log)
    }

    ghost predicate Valid()
      reads this
    {
      entries.Valid() && totals.Valid()
    }

    method Now() returns (t: int)
      modifies this`ticks
      ensures t == env.clock(old(ticks)) && ticks == old(ticks) + 1
    {
      t := env.clock(ticks);
      ticks := ticks + 1;
    }

    method EmitChange(change: Change)
      modifies this`log
      ensures Abs() == Announce(old(Abs()), change)
    {
      log := log + [Emission(change, totals)];
    }

    method Mark(m: Mark) returns (r: Result<Entry, FieldError>)
      requires Valid()
      modifies this
      ensures Valid() && (Abs(), r) == MarkOne(env, limits.max, old(Abs()), m)
    {
      hide Settle, StigmergySpec.AdjustTotal, Raised;
      if m.intensity <= 0.0 {
        return Err(BadIntensity);
      }
      var normalised := env.normaliseType(m.rawType);
      if normalised.None? {
        return Err(BlankType);
      }
      var kind := normalised.value;
      var timestamp := Now();
      var snapshot, total := ApplyEntryMutation(m.nodeId, kind, m.intensity, timestamp);
      EmitChange(Change(m.nodeId, kind, snapshot.intensity, total.intensity, snapshot.updatedAt));
      return Ok(snapshot);
    }

    /** Marks all of `marks`, or restores the field and reports the failing index. */
    method BatchMark(marks: seq<Mark>) returns (r: Result<seq<MarkResult>, nat>)
      requires Valid()
      modifies this
      ensures Valid() && (Abs(), r) == StigmergySpec.BatchMark(env, limits.max, old(Abs()), marks)
    {
      hide Settle, StigmergySpec.AdjustTotal, Raised, Place, Payload, StageMarks;
      StageNothing(env, limits.max, Abs());
      if |marks| == 0 {
        assert marks == [];
        return Ok([]);
      }
      ghost var before := Abs();
      var originalEntries, originalTotals := entries, totals;
      var results: seq<MarkResult> := [];
      var events: seq<Change> := [];
      for n := 0 to |marks|
        invariant Valid()
        invariant StageMarks(env, limits.max, before, marks[..n]) == Staged(Abs(), results, events, None)
        invariant log == before.log
      {
        StageNext(env, limits.max, before, marks, n);
        var m := marks[n];
        var placed := TryPlace(m);
        if placed.Err? {
          FailedStays(env, limits.max, before, marks, n + 1);
          entries, totals := originalEntries, originalTotals;
          return Err(n);
        }
        var result := placed.value;
        results := results + [result];
        events := events + [Change(m.nodeId, result.point.kind, result.point.intensity, result.total.intensity,
          result.point.updatedAt)];
      }
      assert marks[..|marks|] == marks;
      EmitAll(events);
      return Ok(results);
    }

    /** One mark of a batch, up to but without its event. */
    method TryPlace(m: Mark) returns (r: Result<MarkResult, FieldError>)
      requires Valid()
      modifies this
      ensures Valid() && log == old(log)
      ensures match Payload(env, m)
              case Err(error) => Abs() == old(Abs()) && r == Err(error)
              case Ok(kind) =>
                && Abs() == Place(env, limits.max, old(Abs()), m.nodeId, kind, m.intensity)
                && r.Ok?
                && r.value.point == Point(limits.max, old(Abs()), m.nodeId, kind, m.intensity, env.clock(old(ticks)))
                && r.value.total == Total(TotalOf(totals, m.nodeId), env.clock(old(ticks)))
    {
      hide Settle, StigmergySpec.AdjustTotal, Raised;
      if m.intensity <= 0.0 {
        return Err(BadIntensity);
      }
      var normalised := env.normaliseType(m.rawType);
      if normalised.None? {
        return Err(BlankType);
      }
      var timestamp := Now();
      var snapshot, total := ApplyEntryMutation(m.nodeId, normalised.value, m.intensity, timestamp);
      return Ok(MarkResult(snapshot, total));
    }

    method EmitAll(events: seq<Change>)
      modifies this`log
      ensures Abs() == AnnounceAll(old(Abs()), events)
    {
      ghost var start := Abs();
      for n := 0 to |events|
        invariant Abs() == AnnounceAll(start, events[..n])
      {
        assert events[..n + 1][..n] == events[..n];
        EmitChange(events[n]);
      }
      assert events[..|events|] == events;
    }

    method Evaporate(halfLifeMs: Option<real>) returns (r: Result<seq<Change>, FieldError>)
      requires Valid()
      modifies this
      ensures Valid()
      ensures (Abs(), r) ==
        StigmergySpec.Evaporate(env, limits.max, old(Abs()), HalfLife(halfLifeMs, defaultHalfLifeMs))
    {
      hide EvaporateKey, EvaporateKeys;
      var effectiveHalfLife := if halfLifeMs.Some? then halfLifeMs else defaultHalfLifeMs;
      if effectiveHalfLife.None? {
        return Err(NoHalfLife);
      }
      if effectiveHalfLife.value <= 0.0 {
        return Err(BadHalfLife);
      }
      var h := effectiveHalfLife.value;
      ghost var logBefore := log;
      var timestamp := Now();
      ghost var start := Abs();
      var keys := entries.keys;
      var changes: seq<Change> := [];
      EvaporateNothing(env, limits.max, h, start, timestamp);
      for n := 0 to |keys|
        invariant Valid()
        invariant forall k :: k in keys ==> start.entries.Has(k)
        invariant Abs() == EvaporateKeys(env, limits.max, h, start, keys[..n], timestamp)
        invariant |logBefore| <= |log| && changes == ChangesSince(log, logBefore)
      {
        EvaporateNext(env, limits.max, h, start, keys, n, timestamp);
        var change := EvaporateEntry(h, keys[n], timestamp);
        if change.Some? {
          changes := changes + [change.value];
        }
      }
      assert keys[..|keys|] == keys;
      return Ok(changes);
    }

    method NextIntensity(halfLife: real, entry: Entry, elapsed: int) returns (next: real)
      requires halfLife > 0.0 && elapsed > 0
      ensures next == Decayed(env, limits.max, halfLife, entry, entry.updatedAt + elapsed)
    {
      var decayed := entry.intensity * env.halve(elapsed as real / halfLife);
      next := if decayed <= EPSILON then 0.0 else Clamp(limits.max, decayed);
    }

    /** The loop body of `evaporate`; what it emits is returned. */
    method EvaporateEntry(halfLife: real, key: string, timestamp: int) returns (change: Option<Change>)
      requires Valid() && halfLife > 0.0 && entries.Has(key)
      modifies this
      ensures Valid() && Abs() == EvaporateKey(env, limits.max, halfLife, old(Abs()), key, timestamp)
      ensures change.None? ==> log == old(log)
      ensures change.Some? ==>
        |log| == |old(log)| + 1 && log[..|old(log)|] == old(log) && log[|old(log)|].change == change.value
    {
      hide Decayed, StigmergySpec.AdjustTotal, Clamp, JsMap.Put, JsMap.Delete, JsMap.Valid;
      var entry := entries.rows[key];
      var elapsed := if timestamp - entry.updatedAt < 0 then 0 else timestamp - entry.updatedAt;
      if elapsed == 0 {
        NoTimeNoDecay(env, limits.max, halfLife, entry, timestamp);
        entries := entries.Put(key, entry.(updatedAt := timestamp));
        return None;
      }
      var nextIntensity := NextIntensity(halfLife, entry, elapsed);
      var delta := nextIntensity - entry.intensity;
      if -EPSILON <= delta <= EPSILON {
        entries := entries.Put(key, entry.(updatedAt := timestamp));
        return None;
      }
      if nextIntensity <= EPSILON {
        entries := entries.Delete(key);
      } else {
        entries := entries.Put(key, entry.(intensity := nextIntensity, updatedAt := timestamp));
      }
      var total := AdjustTotal(entry.nodeId, delta, timestamp);
      var emitted := Change(
        entry.nodeId, entry.kind, if nextIntensity < 0.0 then 0.0 else nextIntensity, total.intensity, timestamp);
      EmitChange(emitted);
      return Some(emitted);
    }

    method AdjustTotal(nodeId: string, delta: real, timestamp: int) returns (total: Total)
      requires totals.Valid()
      modifies this`totals
      ensures totals == StigmergySpec.AdjustTotal(limits.max, old(totals), nodeId, delta, timestamp)
      ensures total == Total(TotalOf(totals, nodeId), timestamp)
    {
      var current := TotalOf(totals, nodeId);
      var nextIntensity := current + delta;
      if nextIntensity <= EPSILON {
        totals := totals.Delete(nodeId);
        return Total(0.0, timestamp);
      }
      total := Total(AtMost(limits.max, nextIntensity), timestamp);
      totals := totals.Put(nodeId, total);
    }

    method ApplyEntryMutation(nodeId: string, kind: string, delta: real, timestamp: int)
      returns (snapshot: Entry, total: Total)
      requires Valid()
      modifies this`entries, this`totals
      ensures Valid() && Abs() == ApplyMutation(limits.max, old(Abs()), nodeId, kind, delta, timestamp)
      ensures snapshot == Point(limits.max, old(Abs()), nodeId, kind, delta, timestamp)
      ensures total == Total(TotalOf(totals, nodeId), timestamp)
    {
      var key := MakeKey(nodeId, kind);
      var previousIntensity := LevelOf(entries, key);
      var clamped := Clamp(limits.max, previousIntensity + delta);
      var finalIntensity := if clamped <= EPSILON then 0.0 else clamped;
      if finalIntensity <= EPSILON {
        entries := entries.Delete(key);
      } else {
        entries := entries.Put(key, Entry(nodeId, kind, finalIntensity, timestamp));
      }
      total := AdjustTotal(nodeId, finalIntensity - previousIntensity, timestamp);
      snapshot := if finalIntensity <= EPSILON then Entry(nodeId, kind, 0.0, timestamp) else entries.rows[key];
    }

    method GetIntensityBounds() returns (min: real, max: Option<real>, ceiling: real)
      requires Valid()
      ensures min == limits.min && max == limits.max && ceiling == Ceiling(limits, Levels(totals, totals.keys))
    {
      min, max := limits.min, limits.max;
      ceiling := ResolveNormalisationCeiling(Levels(totals, totals.keys));
    }

    method ResolveNormalisationCeiling(intensities: seq<real>) returns (ceiling: real)
      ensures ceiling == Ceiling(limits, intensities)
    {
      if limits.max.Some? {
        return limits.max.value;
      }
      var observedMax := limits.min;
      for n := 0 to |intensities|
        invariant observedMax == Observed(intensities[..n], limits.min)
      {
        assert intensities[..n + 1][..n] == intensities[..n];
        observedMax := if observedMax < intensities[n] then intensities[n] else observedMax;
      }
      assert intensities[..|intensities|] == intensities;
      return if observedMax == limits.min then limits.min + 1.0 else observedMax;
    }

    /** Sums the entries again, per node, and groups them. */
    method HeatmapTotals() returns (cells: JsMap<Total>, contributions: JsMap<seq<Entry>>)
      requires Valid()
      ensures cells.Valid() && contributions.Valid()
      ensures Heatmap(entries, entries.keys, cells, contributions)
    {
      hide Heatmap;
      cells, contributions := Empty(), Empty();
      var keys := entries.keys;
      HeatmapStart(entries);
      assert keys[..0] == [];
      for i := 0 to |keys|
        invariant cells.Valid() && contributions.Valid()
        invariant Heatmap(entries, keys[..i], cells, contributions)
      {
        assert keys[..i + 1] == keys[..i] + [keys[i]];
        HeatmapNext(entries, keys[..i], keys[i], cells, contributions);
        var entry := entries.rows[keys[i]];
        var bucket := if contributions.Has(entry.nodeId) then contributions.rows[entry.nodeId] else [];
        contributions := contributions.Put(entry.nodeId, bucket + [entry]);
        if !cells.Has(entry.nodeId) {
          cells := cells.Put(entry.nodeId, Total(entry.intensity, entry.updatedAt));
        } else {
          cells := cells.Put(entry.nodeId, Grown(cells.rows[entry.nodeId], entry));
        }
      }
      assert keys[..|keys|] == keys;
    }
  }

  /** The entries of a node among `keys`, in order. */
  function SharesOf(entries: JsMap<Entry>, keys: seq<string>, nodeId: string): seq<Entry> {
    if keys == [] then []
    else
      var front, e := SharesOf(entries, keys[..|keys| - 1], nodeId), entries.Get(keys[|keys| - 1]);
      if e.Some? && e.value.nodeId == nodeId then front + [e.value] else front
  }

  function Grown(total: Total, e: Entry): Total {
    Total(total.intensity + e.intensity, if e.updatedAt > total.updatedAt then e.updatedAt else total.updatedAt)
  }

  ghost predicate CellOf(entries: JsMap<Entry>, keys: seq<string>, nodeId: string, total: Total, points: seq<Entry>) {
    && total.intensity == SumOver(entries, keys, nodeId)
    && points == SharesOf(entries, keys, nodeId)
    && (forall e :: e in points ==> e.updatedAt <= total.updatedAt)
    && (exists e :: e in points && e.updatedAt == total.updatedAt)
  }

  /** A cell for each node with an entry among `keys`: the sum of its entries, the latest update, and the entries. */
  ghost predicate Heatmap(entries: JsMap<Entry>, keys: seq<string>, cells: JsMap<Total>,
    contributions: JsMap<seq<Entry>>) {
    && (forall n :: cells.Has(n) <==> SharesOf(entries, keys, n) != [])
    && (forall n :: contributions.Has(n) <==> cells.Has(n))
    && (forall n :: cells.Has(n) ==> CellOf(entries, keys, n, cells.rows[n], contributions.rows[n]))
  }

  lemma HeatmapStart(entries: JsMap<Entry>)
    ensures Heatmap(entries, [], Empty(), Empty())
  {
  }

  lemma {:induction false} NoShareNoSum(entries: JsMap<Entry>, keys: seq<string>, nodeId: string)
    requires SharesOf(entries, keys, nodeId) == []
    ensures SumOver(entries, keys, nodeId) == 0.0
  {
    if keys != [] {
      NoShareNoSum(entries, keys[..|keys| - 1], nodeId);
    }
  }

  lemma OneMoreKey(entries: JsMap<Entry>, keys: seq<string>, key: string, nodeId: string)
    requires entries.Has(key)
    ensures var e := entries.rows[key];
            && SharesOf(entries, keys + [key], nodeId) ==
              SharesOf(entries, keys, nodeId) + (if e.nodeId == nodeId then [e] else [])
            && SumOver(entries, keys + [key], nodeId) ==
              SumOver(entries, keys, nodeId) + (if e.nodeId == nodeId then e.intensity else 0.0)
  {
    assert (keys + [key])[..|keys|] == keys;
  }

  lemma SameCell(entries: JsMap<Entry>, keys: seq<string>, key: string, nodeId: string, total: Total,
    points: seq<Entry>)
    requires entries.Has(key) && entries.rows[key].nodeId != nodeId
    ensures SharesOf(entries, keys + [key], nodeId) == SharesOf(entries, keys, nodeId)
    ensures CellOf(entries, keys + [key], nodeId, total, points) <==> CellOf(entries, keys, nodeId, total, points)
  {
    OneMoreKey(entries, keys, key, nodeId);
  }

  lemma GrownCell(entries: JsMap<Entry>, keys: seq<string>, key: string, total: Total, points: seq<Entry>)
    requires entries.Has(key) && CellOf(entries, keys, entries.rows[key].nodeId, total, points)
    ensures var e := entries.rows[key]; CellOf(entries, keys + [key], e.nodeId, Grown(total, e), points + [e])
  {
    hide SharesOf, SumOver;
    var e := entries.rows[key];
    OneMoreKey(entries, keys, key, e.nodeId);
    var latest :| latest in points && latest.updatedAt == total.updatedAt;
    assert latest in points + [e] && e in points + [e];
  }

  lemma FirstCell(entries: JsMap<Entry>, keys: seq<string>, key: string)
    requires entries.Has(key) && SharesOf(entries, keys, entries.rows[key].nodeId) == []
    ensures var e := entries.rows[key]; CellOf(entries, keys + [key], e.nodeId, Total(e.intensity, e.updatedAt), [e])
  {
    var e := entries.rows[key];
    OneMoreKey(entries, keys, key, e.nodeId);
    NoShareNoSum(entries, keys, e.nodeId);
    assert e in [e];
  }

  lemma HeatmapNext(entries: JsMap<Entry>, keys: seq<string>, key: string, cells: JsMap<Total>,
    contributions: JsMap<seq<Entry>>)
    requires entries.Has(key) && Heatmap(entries, keys, cells, contributions)
    ensures var e := entries.rows[key];
            var bucket := if contributions.Has(e.nodeId) then contributions.rows[e.nodeId] else [];
            var total := if cells.Has(e.nodeId) then Grown(cells.rows[e.nodeId], e)
              else Total(e.intensity, e.updatedAt);
            Heatmap(entries, keys + [key], cells.Put(e.nodeId, total), contributions.Put(e.nodeId, bucket + [e]))
  {
    hide SharesOf, SumOver, CellOf, Grown;
    var e := entries.rows[key];
    if cells.Has(e.nodeId) {
      GrownCell(entries, keys, key, cells.rows[e.nodeId], contributions.rows[e.nodeId]);
    } else {
      FirstCell(entries, keys, key);
      assert [] + [e] == [e];
    }
    OneMoreKey(entries, keys, key, e.nodeId);
    forall n | n != e.nodeId
      ensures SharesOf(entries, keys + [key], n) == SharesOf(entries, keys, n)
      ensures cells.Has(n) ==> CellOf(entries, keys + [key], n, cells.rows[n], contributions.rows[n])
    {
      if cells.Has(n) {
        SameCell(entries, keys, key, n, cells.rows[n], contributions.rows[n]);
      } else {
        SameCell(entries, keys, key, n, Total(0.0, 0), []);
      }
    }
  }

  lemma NoTimeNoDecay(env: Env, max: Option<real>, halfLife: real, e: Entry, t: int)
    requires halfLife > 0.0 && t <= e.updatedAt
    ensures Decayed(env, max, halfLife, e, t) == e.intensity
  {
  }

  lemma EvaporateNothing(env: Env, max: Option<real>, h: real, f: Field, t: int)
    requires h > 0.0
    ensures EvaporateKeys(env, max, h, f, [], t) == f
  {
  }

  lemma EvaporateNext(env: Env, max: Option<real>, h: real, f: Field, keys: seq<string>, n: nat, t: int)
    requires h > 0.0 && n < |keys| && forall k :: k in keys ==> f.entries.Has(k)
    requires forall i, j :: 0 <= i < j < |keys| ==> keys[i] != keys[j]
    ensures var f' := EvaporateKeys(env, max, h, f, keys[..n], t);
            f'.entries.Has(keys[n])
              && EvaporateKeys(env, max, h, f, keys[..n + 1], t) == EvaporateKey(env, max, h, f', keys[n], t)
  {
    hide EvaporateKey;
    assert keys[..n + 1][..n] == keys[..n] && keys[n] !in keys[..n];
    assert f.entries.Has(keys[n]);
    assert EvaporateKeys(env, max, h, f, keys[..n], t).entries.Get(keys[n]) == f.entries.Get(keys[n]);
  }

  lemma StageNothing(env: Env, max: Option<real>, f: Field)
    ensures StageMarks(env, max, f, []) == Staged(f, [], [], None)
  {
  }

  lemma StageNext(env: Env, max: Option<real>, f: Field, marks: seq<Mark>, n: nat)
    requires n < |marks|
    ensures StageMarks(env, max, f, marks[..n + 1]) ==
      StageOne(env, max, StageMarks(env, max, f, marks[..n]), marks[n], n)
  {
    hide StageOne;
    assert marks[..n + 1][..n] == marks[..n];
  }

  /** Once a mark of a batch has failed, the rest of the batch changes nothing. */
  lemma {:induction false} FailedStays(env: Env, max: Option<real>, f: Field, marks: seq<Mark>, n: nat)
    requires n <= |marks| && StageMarks(env, max, f, marks[..n]).failed.Some?
    ensures StageMarks(env, max, f, marks) == StageMarks(env, max, f, marks[..n])
    decreases |marks|
  {
    if n == |marks| {
      assert marks[..n] == marks;
    } else {
      var front := marks[..|marks| - 1];
      assert front[..n] == marks[..n];
      FailedStays(env, max, f, front, n);
    }
  }
}
