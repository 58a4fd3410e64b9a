/**
 The stigmergic field (src/coord/stigmergy.ts) as steps on a state: pheromone entries per node and type, and a
 total per node that is kept up to date beside them instead of being summed again.
 */
module StigmergySpec {
  import opened Outcomes
  import opened JsMaps

  /** Intensities at or below this have evaporated. */
  const EPSILON := 0.000001

  /**
   What the field is given from outside: the n-th clock reading, `Math.pow(0.5, _)`, and `trim` followed by
   `toLowerCase`, which is `None` when nothing is left.
   */
  datatype Env = Env(clock: nat -> int, halve: real -> real, normaliseType: string -> Option<string>)

  ghost predicate Decays(env: Env) {
    forall x :: x >= 0.0 ==> 0.0 <= env.halve(x) <= 1.0
  }

  datatype Entry = Entry(nodeId: string, kind: string, intensity: real, updatedAt: int)

  datatype Total = Total(intensity: real, updatedAt: int)

  datatype Change = Change(nodeId: string, kind: string, intensity: real, totalIntensity: real, updatedAt: int)

  /** A change event and the totals a listener can read while it is delivered. */
  datatype Emission = Emission(change: Change, totals: JsMap<Total>)

  datatype Limits = Limits(min: real, max: Option<real>)

  /** What the constructor accepts. */
  predicate LimitsValid(limits: Limits) {
    limits.min >= 0.0 && (limits.max.Some? ==> limits.max.value > limits.min)
  }

  /** `ticks` counts the clock readings, `log` is what listeners have received. */
  datatype Field = Field(entries: JsMap<Entry>, totals: JsMap<Total>, ticks: nat, log: seq<Emission>)

  datatype FieldError = BadIntensity | BlankType | NoHalfLife | BadHalfLife | BadLimits

  datatype Mark = Mark(nodeId: string, rawType: string, intensity: real)

  datatype MarkResult = MarkResult(point: Entry, total: Total)

  const BLANK := Field(Empty(), Empty(), 0, [])

  // ---------------------------------------------------------------------------------------------
  // Levels
  // ---------------------------------------------------------------------------------------------

  function MakeKey(nodeId: string, kind: string): string {
    nodeId + "::" + kind
  }

  function AtMost(max: Option<real>, value: real): real {
    if max.Some? && max.value < value then max.value else value
  }

  function Clamp(max: Option<real>, value: real): real {
    AtMost(max, if value < 0.0 then 0.0 else value)
  }

  /** Nothing is left of an intensity too small to keep. */
  function Kept(value: real): real {
    if value <= EPSILON then 0.0 else value
  }

  function LevelOf(entries: JsMap<Entry>, key: string): real {
    if entries.Has(key) then entries.rows[key].intensity else 0.0
  }

  function TotalOf(totals: JsMap<Total>, nodeId: string): real {
    if totals.Has(nodeId) then totals.rows[nodeId].intensity else 0.0
  }

  // ---------------------------------------------------------------------------------------------
  // Steps
  // ---------------------------------------------------------------------------------------------

  /** The entry is stored, or removed when nothing is left of it. */
  function Settle(entries: JsMap<Entry>, key: string, e: Entry): (m: JsMap<Entry>)
    ensures entries.Valid() ==> m.Valid()
  {
    if e.intensity <= EPSILON then entries.Delete(key) else entries.Put(key, e)
  }

  function AdjustTotal(max: Option<real>, totals: JsMap<Total>, nodeId: string, delta: real, t: int): (m: JsMap<Total>)
    ensures totals.Valid() ==> m.Valid()
  {
    var next := TotalOf(totals, nodeId) + delta;
    if next <= EPSILON then totals.Delete(nodeId) else totals.Put(nodeId, Total(AtMost(max, next), t))
  }

  /** Intensity of the entry at `key` once `delta` is added. */
  function Raised(max: Option<real>, entries: JsMap<Entry>, key: string, delta: real): real {
    Kept(Clamp(max, LevelOf(entries, key) + delta))
  }

  function ApplyMutation(max: Option<real>, f: Field, nodeId: string, kind: string, delta: real, t: int): Field {
    var key := MakeKey(nodeId, kind);
    var final := Raised(max, f.entries, key, delta);
    f.(entries := Settle(f.entries, key, Entry(nodeId, kind, final, t)),
       totals := AdjustTotal(max, f.totals, nodeId, final - LevelOf(f.entries, key), t))
  }

  /** The payload is checked before the clock is read. */
  function Payload(env: Env, m: Mark): Result<string, FieldError> {
    if m.intensity <= 0.0 then Err(BadIntensity)
    else
      match env.normaliseType(m.rawType)
      case None => Err(BlankType)
      case Some(kind) => Ok(kind)
  }

  /** One accepted mark, before its event goes out. */
  function Place(env: Env, max: Option<real>, f: Field, nodeId: string, kind: string, delta: real): Field {
    var f' := ApplyMutation(max, f, nodeId, kind, delta, env.clock(f.ticks));
    f'.(ticks := f.ticks + 1)
  }

  /** What the caller is told about the entry just marked. */
  function Point(max: Option<real>, f: Field, nodeId: string, kind: string, delta: real, t: int): Entry {
    Entry(nodeId, kind, Raised(max, f.entries, MakeKey(nodeId, kind), delta), t)
  }

  function Announce(f: Field, change: Change): Field {
    f.(log := f.log + [Emission(change, f.totals)])
  }

  function ChangeOf(point: Entry, totals: JsMap<Total>): Change {
    Change(point.nodeId, point.kind, point.intensity, TotalOf(totals, point.nodeId), point.updatedAt)
  }

  function MarkOne(env: Env, max: Option<real>, f: Field, m: Mark): (Field, Result<Entry, FieldError>) {
    match Payload(env, m)
    case Err(error) => (f, Err(error))
    case Ok(kind) =>
      var point := Point(max, f, m.nodeId, kind, m.intensity, env.clock(f.ticks));
      var placed := Place(env, max, f, m.nodeId, kind, m.intensity);
      (Announce(placed, ChangeOf(point, placed.totals)), Ok(point))
  }

  /** A batch in progress: the field so far, and the results and events collected for its marks. */
  datatype Staged = Staged(field: Field, results: seq<MarkResult>, changes: seq<Change>, failed: Option<nat>)

  /** One more mark, the `n`-th of the batch. */
  function StageOne(env: Env, max: Option<real>, s: Staged, m: Mark, n: nat): Staged {
    if s.failed.Some? then s
    else
      match Payload(env, m)
      case Err(_) => s.(failed := Some(n))
      case Ok(kind) =>
        var t := env.clock(s.field.ticks);
        var point := Point(max, s.field, m.nodeId, kind, m.intensity, t);
        var placed := Place(env, max, s.field, m.nodeId, kind, m.intensity);
        Staged(placed, s.results + [MarkResult(point, Total(TotalOf(placed.totals, m.nodeId), t))],
               s.changes + [ChangeOf(point, placed.totals)], None)
  }

  function StageMarks(env: Env, max: Option<real>, f: Field, marks: seq<Mark>): Staged {
    if marks == [] then Staged(f, [], [], None)
    else StageOne(env, max, StageMarks(env, max, f, marks[..|marks| - 1]), marks[|marks| - 1], |marks| - 1)
  }

  function AnnounceAll(f: Field, changes: seq<Change>): (f': Field)
    ensures f'.entries == f.entries && f'.totals == f.totals && f'.ticks == f.ticks
  {
    if changes == [] then f
    else Announce(AnnounceAll(f, changes[..|changes| - 1]), changes[|changes| - 1])
  }

  /** A failing batch puts entries and totals back and emits nothing; the clock readings stay taken. */
  function BatchMark(env: Env, max: Option<real>, f: Field, marks: seq<Mark>): (Field, Result<seq<MarkResult>, nat>) {
    var s := StageMarks(env, max, f, marks);
    if s.failed.Some? then (f.(ticks := s.field.ticks), Err(s.failed.value))
    else (AnnounceAll(s.field, s.changes), Ok(s.results))
  }

  /** One half to the number of half-lives gone by since the entry was last brought up to date. */
  function Factor(env: Env, halfLife: real, e: Entry, t: int): real
    requires halfLife > 0.0
  {
    env.halve((t - e.updatedAt) as real / halfLife)
  }

  function Fade(intensity: real, factor: real): real {
    intensity * factor
  }

  /** Intensity an entry has decayed to. */
  function Decayed(env: Env, max: Option<real>, halfLife: real, e: Entry, t: int): real
    requires halfLife > 0.0
  {
    if t <= e.updatedAt then e.intensity
    else
      var decayed := Fade(e.intensity, Factor(env, halfLife, e, t));
      if decayed <= EPSILON then 0.0 else Clamp(max, decayed)
  }

  /** A loss this small is dropped, and the entry counts as brought up to date. */
  predicate Negligible(env: Env, max: Option<real>, halfLife: real, e: Entry, t: int)
    requires halfLife > 0.0
  {
    var delta := Decayed(env, max, halfLife, e, t) - e.intensity;
    -EPSILON <= delta <= EPSILON
  }

  function EvaporateKey(env: Env, max: Option<real>, halfLife: real, f: Field, key: string, t: int): Field
    requires halfLife > 0.0 && f.entries.Has(key)
  {
    var e := f.entries.rows[key];
    if Negligible(env, max, halfLife, e, t) then f.(entries := f.entries.Put(key, e.(updatedAt := t)))
    else
      var next := Decayed(env, max, halfLife, e, t);
      var totals := AdjustTotal(max, f.totals, e.nodeId, next - e.intensity, t);
      Announce(f.(entries := Settle(f.entries, key, e.(intensity := next, updatedAt := t)), totals := totals),
               Change(e.nodeId, e.kind, if next < 0.0 then 0.0 else next, TotalOf(totals, e.nodeId), t))
  }

  /** The entries of `keys`, one after the other. */
  function EvaporateKeys(env: Env, max: Option<real>, halfLife: real, f: Field, keys: seq<string>, t: int): (f': Field)
    requires halfLife > 0.0
    requires forall k :: k in keys ==> f.entries.Has(k)
    requires forall i, j :: 0 <= i < j < |keys| ==> keys[i] != keys[j]
    ensures forall k :: k !in keys ==> f'.entries.Get(k) == f.entries.Get(k)
  {
    if keys == [] then f
    else
      var front, key := keys[..|keys| - 1], keys[|keys| - 1];
      var f' := EvaporateKeys(env, max, halfLife, f, front, t);
      assert key !in front && f.entries.Has(key) && f'.entries.Get(key) == f.entries.Get(key);
      EvaporateKey(env, max, halfLife, f', key, t)
  }

  function HalfLife(given: Option<real>, default: Option<real>): Result<real, FieldError> {
    var halfLife := if given.Some? then given else default;
    if halfLife.None? then Err(NoHalfLife)
    else if halfLife.value <= 0.0 then Err(BadHalfLife)
    else Ok(halfLife.value)
  }

  function Evaporate(env: Env, max: Option<real>, f: Field, halfLife: Result<real, FieldError>)
    : (Field, Result<seq<Change>, FieldError>)
    requires f.entries.Valid() && (halfLife.Ok? ==> halfLife.value > 0.0)
  {
    match halfLife
    case Err(error) => (f, Err(error))
    case Ok(h) =>
      var f' := EvaporateKeys(env, max, h, f.(ticks := f.ticks + 1), f.entries.keys, env.clock(f.ticks));
      (f', Ok(ChangesSince(f'.log, f.log)))
  }

  /** The changes emitted after `before`. */
  function ChangesSince(log: seq<Emission>, before: seq<Emission>): seq<Change> {
    if |log| <= |before| then [] else ChangesSince(log[..|log| - 1], before) + [log[|log| - 1].change]
  }

  // ---------------------------------------------------------------------------------------------
  // Reading the field
  // ---------------------------------------------------------------------------------------------

  function Share(e: Option<Entry>, nodeId: string): real {
    if e.Some? && e.value.nodeId == nodeId then e.value.intensity else 0.0
  }

  /** Sum of the intensities stored for a node under `keys`. */
  function SumOver(entries: JsMap<Entry>, keys: seq<string>, nodeId: string): real {
    if keys == [] then 0.0
    else SumOver(entries, keys[..|keys| - 1], nodeId) + Share(entries.Get(keys[|keys| - 1]), nodeId)
  }

  /** The recomputed total. */
  function NodeSum(entries: JsMap<Entry>, nodeId: string): real {
    SumOver(entries, entries.keys, nodeId)
  }

  function Observed(levels: seq<real>, min: real): real {
    if levels == [] then min
    else
      var m, last := Observed(levels[..|levels| - 1], min), levels[|levels| - 1];
      if m < last then last else m
  }

  function Ceiling(limits: Limits, levels: seq<real>): real {
    if limits.max.Some? then limits.max.value
    else
      var observed := Observed(levels, limits.min);
      if observed == limits.min then limits.min + 1.0 else observed
  }

  function Levels(totals: JsMap<Total>, keys: seq<string>): (levels: seq<real>)
    requires forall i :: 0 <= i < |keys| ==> keys[i] in totals.rows
    ensures |levels| == |keys| && forall i :: 0 <= i < |keys| ==> levels[i] == totals.rows[keys[i]].intensity
  {
    seq(|keys|, i requires 0 <= i < |keys| => totals.rows[keys[i]].intensity)
  }

  function Normalise(limits: Limits, value: real, ceiling: real): real {
    var span := ceiling - limits.min;
    if span <= 0.0 then (if value > limits.min then 1.0 else 0.0)
    else if value <= limits.min then 0.0
    else if value >= ceiling then 1.0
    else (value - limits.min) / span
  }
}
