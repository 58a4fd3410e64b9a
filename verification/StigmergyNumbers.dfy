/**
 Marks, decay and the scale told in intensities (src/coord/stigmergy.ts, lines 229-383, 510-592).
 */
module StigmergyNumbers {
  import opened Outcomes
  import opened JsMaps
  import opened StigmergySpec
  import opened StigmergyProofs
  import RealFacts

  // ---------------------------------------------------------------------------------------------
  // Marks
  // ---------------------------------------------------------------------------------------------

  /** `value`, cut at the maximum and dropped when at most a millionth. */
  ghost predicate Settles(max: Option<real>, value: real, level: real) {
    if value <= 0.000001 then level == 0.0
    else if max.Some? && value > max.value then level == (if max.value <= 0.000001 then 0.0 else max.value)
    else level == value
  }

  /**
   A mark with a positive intensity and a type adds its intensity to the entry of its node and type; the node's total
   moves as the entry does, and is cut at the maximum. The entry bears the time of the mark, nothing else changes, and
   one change goes out. Any other mark is refused and changes nothing, not even the clock.
   */
  lemma MarkInNumbers(env: Env, max: Option<real>, f: Field, m: Mark)
    requires Kempt(max, f.entries) && f.totals.Valid() && (max.Some? ==> max.value > 0.0)
    ensures var (f', r), kind := MarkOne(env, max, f, m), env.normaliseType(m.rawType);
            && (r.Err? <==> m.intensity <= 0.0 || kind.None?)
            && (r.Err? ==> f' == f && r.error == (if m.intensity <= 0.0 then BadIntensity else BlankType))
            && (r.Ok? ==>
                  var key, now := m.nodeId + "::" + kind.value, env.clock(f.ticks);
                  var level, level' := LevelOf(f.entries, key), LevelOf(f'.entries, key);
                  var total, total' := TotalOf(f.totals, m.nodeId), TotalOf(f'.totals, m.nodeId);
                  && Settles(max, level + m.intensity, level')
                  && (if total + (level' - level) <= 0.000001 then total' == 0.0
                      else if max.Some? && total + (level' - level) > max.value then total' == max.value
                      else total' == total + (level' - level))
                  && (f'.entries.Has(key) <==> level' > 0.0)
                  && (f'.entries.Has(key) ==> f'.entries.rows[key] == Entry(m.nodeId, kind.value, level', now))
                  && r.value == Entry(m.nodeId, kind.value, level', now)
                  && (forall k :: k != key ==> f'.entries.Get(k) == f.entries.Get(k))
                  && (forall n :: n != m.nodeId ==> f'.totals.Get(n) == f.totals.Get(n))
                  && f'.log == f.log + [Emission(Change(m.nodeId, kind.value, level', total', now), f'.totals)])
  {
    hide Kempt;
    if m.intensity > 0.0 && env.normaliseType(m.rawType).Some? {
      var key := MakeKey(m.nodeId, env.normaliseType(m.rawType).value);
      KemptIsValid(max, f.entries);
      if f.entries.Has(key) {
        KemptKey(max, f.entries, key);
      }
    }
  }

  /** A batch that succeeds answers each mark as a single one would be, with the total of its node at that point. */
  lemma {:induction false} BatchAnswersEachMark(env: Env, max: Option<real>, f: Field, marks: seq<Mark>, k: nat)
    requires k < |marks| && StageMarks(env, max, f, marks).failed.None?
    ensures var results, mid := StageMarks(env, max, f, marks).results, StageMarks(env, max, f, marks[..k]).field;
            && |results| == |marks| && mid.ticks == f.ticks + k
            && var (next, r) := MarkOne(env, max, mid, marks[k]);
               && r.Ok? && results[k].point == r.value
               && results[k].total == Total(TotalOf(next.totals, marks[k].nodeId), env.clock(f.ticks + k))
    decreases |marks|
  {
    hide ApplyMutation, Point;
    var front := marks[..|marks| - 1];
    StagedSoFar(env, max, f, front);
    if k < |front| {
      BatchAnswersEachMark(env, max, f, front, k);
      assert front[..k] == marks[..k];
    }
  }

  lemma {:induction false} StagedSoFar(env: Env, max: Option<real>, f: Field, marks: seq<Mark>)
    requires StageMarks(env, max, f, marks).failed.None?
    ensures var s := StageMarks(env, max, f, marks); |s.results| == |marks| && s.field.ticks == f.ticks + |marks|
  {
    hide ApplyMutation, Point;
    if marks != [] {
      StagedSoFar(env, max, f, marks[..|marks| - 1]);
    }
  }

  // ---------------------------------------------------------------------------------------------
  // Decay
  // ---------------------------------------------------------------------------------------------

  /** What the decay leaves of `intensity` after `elapsed` milliseconds. */
  function Left(env: Env, h: real, intensity: real, elapsed: int): real
    requires h > 0.0
  {
    intensity * env.halve(elapsed as real / h)
  }

  /**
   One evaporation at `t`: an entry that no time has passed for keeps its intensity. Otherwise what the decay leaves of
   it, nothing if that is at most a millionth, is what it has; except that a loss of at most a millionth is not taken.
   */
  lemma EvaporationInNumbers(env: Env, max: Option<real>, h: real, f: Field, t: int, key: string)
    requires Kempt(max, f.entries) && f.entries.Valid() && h > 0.0 && Decays(env) && f.entries.Has(key)
    ensures var e := f.entries.rows[key];
            var level' := LevelOf(EvaporateKeys(env, max, h, f, f.entries.keys, t).entries, key);
            if t <= e.updatedAt then level' == e.intensity
            else
              var left := Left(env, h, e.intensity, t - e.updatedAt);
              var next := if left <= 0.000001 then 0.0 else left;
              level' == if e.intensity - next <= 0.000001 then e.intensity else next
  {
    hide Kempt, Decays, EvaporateKeys;
    var e := f.entries.rows[key];
    KemptKey(max, f.entries, key);
    EvaporatedLevels(env, max, h, f, f.entries.keys, t, key);
    if t > e.updatedAt {
      FactorInRange(env, h, e, t);
      ShrinksBy(e.intensity, Factor(env, h, e, t));
    }
  }

  /** Powers of one half. */
  ghost predicate Multiplies(env: Env) {
    forall x, y :: x >= 0.0 && y >= 0.0 ==> env.halve(x + y) == env.halve(x) * env.halve(y)
  }

  /** The decay over two spans of time is the decay over both. */
  lemma DecayAddsUp(env: Env, h: real, intensity: real, a: int, b: int)
    requires Multiplies(env) && h > 0.0 && a >= 0 && b >= 0
    ensures Left(env, h, Left(env, h, intensity, a), b) == Left(env, h, intensity, a + b)
  {
    hide Multiplies;
    var x, y := a as real / h, b as real / h;
    assert (a + b) as real == a as real + b as real;
    RealFacts.QuotientsAdd(a as real, b as real, h);
    RealFacts.QuotientIsNotNegative(a as real, h);
    RealFacts.QuotientIsNotNegative(b as real, h);
    Multiplied(env, x, y);
    RealFacts.ProductsRegroup(intensity, env.halve(x), env.halve(y));
  }

  lemma Multiplied(env: Env, x: real, y: real)
    requires Multiplies(env) && x >= 0.0 && y >= 0.0
    ensures env.halve(x + y) == env.halve(x) * env.halve(y)
  {
  }

  /**
   Evaporating twice comes to the same as evaporating once at the later time, as long as the losses are large enough
   to be taken and something is left.
   */
  lemma TwoEvaporationsAreOne(env: Env, max: Option<real>, h: real, f: Field, t: int, u: int, key: string)
    requires Kempt(max, f.entries) && f.entries.Valid() && h > 0.0 && Decays(env) && Multiplies(env)
    requires f.entries.Has(key) && f.entries.rows[key].updatedAt < t < u
    requires var e := f.entries.rows[key];
             var then', later := Left(env, h, e.intensity, t - e.updatedAt), Left(env, h, e.intensity, u - e.updatedAt);
             e.intensity - then' > 0.000001 && then' - later > 0.000001 && later > 0.000001
    ensures var mid := EvaporateKeys(env, max, h, f, f.entries.keys, t);
            && mid.entries.Valid()
            && LevelOf(EvaporateKeys(env, max, h, mid, mid.entries.keys, u).entries, key)
               == LevelOf(EvaporateKeys(env, max, h, f, f.entries.keys, u).entries, key)
  {
    hide Kempt, Decays, EvaporateKeys, Multiplies, Left;
    var e := f.entries.rows[key];
    var mid := EvaporateKeys(env, max, h, f, f.entries.keys, t);
    EvaporateStaysValid(env, max, h, f, f.entries.keys, t);
    EvaporateKeepsKempt(env, max, h, f, f.entries.keys, t);
    EvaporationInNumbers(env, max, h, f, t, key);
    EvaporationInNumbers(env, max, h, f, u, key);
    EvaporatedAt(env, max, h, f, t, key);
    EvaporationInNumbers(env, max, h, mid, u, key);
    DecayAddsUp(env, h, e.intensity, t - e.updatedAt, u - t);
  }

  lemma EvaporatedAt(env: Env, max: Option<real>, h: real, f: Field, t: int, key: string)
    requires Kempt(max, f.entries) && f.entries.Valid() && h > 0.0 && f.entries.Has(key)
    ensures var m := EvaporateKeys(env, max, h, f, f.entries.keys, t).entries;
            m.Has(key) ==> m.rows[key].updatedAt == t
  {
    hide Kempt, EvaporateKeys, Decayed, Negligible;
    EvaporatedLevels(env, max, h, f, f.entries.keys, t, key);
  }

  /** The half-life asked for counts, else the field's own; without either, or not positive, nothing evaporates. */
  lemma HalfLifeInNumbers(env: Env, max: Option<real>, f: Field, given: Option<real>, default: Option<real>)
    requires f.entries.Valid()
    ensures var h := if given.Some? then given else default;
            var (f', r) := Evaporate(env, max, f, HalfLife(given, default));
            && (r.Ok? <==> h.Some? && h.value > 0.0)
            && (r.Err? ==> f' == f)
            && (r.Ok? ==>
                  f' == EvaporateKeys(
                    env, max, h.value, f.(ticks := f.ticks + 1), f.entries.keys, env.clock(f.ticks)))
  {
    hide EvaporateKeys;
  }

  // ---------------------------------------------------------------------------------------------
  // The scale
  // ---------------------------------------------------------------------------------------------

  /** Between the minimum and the ceiling the scale is linear. */
  lemma ScaleIsLinear(limits: Limits, value: real, ceiling: real)
    requires limits.min < value < ceiling
    ensures Normalise(limits, value, ceiling) * (ceiling - limits.min) == value - limits.min
  {
  }
}
