/**
 Properties of whole runs of the stigmergic field: the totals kept on the side against the sums of the entries,
 batches, evaporation, and the scale intensities are shown on.
 */
module StigmergyProofs {
  import opened Outcomes
  import opened JsMaps
  import opened RealFacts
  import opened StigmergySpec
  import Stigmergy

  // ---------------------------------------------------------------------------------------------
  // Sums over the entries
  // ---------------------------------------------------------------------------------------------

  predicate Distinct(keys: seq<string>) {
    forall i, j :: 0 <= i < j < |keys| ==> keys[i] != keys[j]
  }

  /** Changing the entry at `k` changes a sum by the change of its share. */
  lemma {:induction false} SumAfterChange(m: JsMap<Entry>, m': JsMap<Entry>, keys: seq<string>, k: string, n: string)
    requires Distinct(keys) && forall x :: x in keys && x != k ==> m'.Get(x) == m.Get(x)
    ensures SumOver(m', keys, n) ==
      SumOver(m, keys, n) + (if k in keys then Share(m'.Get(k), n) - Share(m.Get(k), n) else 0.0)
  {
    if keys != [] {
      var front, last := keys[..|keys| - 1], keys[|keys| - 1];
      assert keys == front + [last];
      assert last !in front;
      SumAfterChange(m, m', front, k, n);
    }
  }

  lemma {:induction false} SumWithout(m: JsMap<Entry>, keys: seq<string>, k: string, n: string)
    requires Distinct(keys)
    ensures SumOver(m, Without(keys, k), n) == SumOver(m, keys, n) - (if k in keys then Share(m.Get(k), n) else 0.0)
  {
    if keys != [] {
      var front, last := keys[..|keys| - 1], keys[|keys| - 1];
      assert keys == front + [last];
      assert last !in front;
      SumWithout(m, front, k, n);
      WithoutJoins(front, [last], k);
      if last == k {
        assert Without(keys, k) == Without(front, k);
      } else {
        assert Without(keys, k) == Without(front, k) + [last];
      }
    }
  }

  lemma SumOfOneMore(m: JsMap<Entry>, keys: seq<string>, k: string, n: string)
    ensures SumOver(m, keys + [k], n) == SumOver(m, keys, n) + Share(m.Get(k), n)
  {
    assert (keys + [k])[..|keys|] == keys;
  }

  lemma SumAfterPut(m: JsMap<Entry>, k: string, e: Entry, n: string)
    requires m.Valid()
    ensures NodeSum(m.Put(k, e), n) == NodeSum(m, n) - Share(m.Get(k), n) + Share(Some(e), n)
  {
    hide SumOver;
    var m' := m.Put(k, e);
    assert forall x :: x != k ==> m'.Get(x) == m.Get(x);
    SumAfterChange(m, m', m.keys, k, n);
    assert m.Has(k) <==> k in m.keys;
    if !m.Has(k) {
      SumOfOneMore(m', m.keys, k, n);
    }
  }

  lemma SumAfterDelete(m: JsMap<Entry>, k: string, n: string)
    requires m.Valid()
    ensures NodeSum(m.Delete(k), n) == NodeSum(m, n) - Share(m.Get(k), n)
  {
    WithoutKeepsRest(m.keys, k);
    SumWithout(m, m.keys, k, n);
    SumAfterChange(m, m.Delete(k), Without(m.keys, k), k, n);
  }

  lemma SumAfterSettle(m: JsMap<Entry>, k: string, e: Entry, n: string)
    requires m.Valid()
    ensures NodeSum(Settle(m, k, e), n) ==
              NodeSum(m, n) - Share(m.Get(k), n) + (if e.intensity <= EPSILON then 0.0 else Share(Some(e), n))
  {
    hide NodeSum;
    SumAfterPut(m, k, e, n);
    SumAfterDelete(m, k, n);
  }

  // ---------------------------------------------------------------------------------------------
  // What every step keeps
  // ---------------------------------------------------------------------------------------------

  /** Each entry sits under its own key, is worth keeping and is within the maximum. */
  ghost predicate Kempt(max: Option<real>, entries: JsMap<Entry>) {
    && entries.Valid()
    && forall k :: k in entries.rows ==>
         var e := entries.rows[k];
         k == MakeKey(e.nodeId, e.kind) && EPSILON < e.intensity && AtMost(max, e.intensity) == e.intensity
  }

  /** A sum is nothing, or is worth keeping. */
  lemma {:induction false} SumGap(max: Option<real>, m: JsMap<Entry>, keys: seq<string>, n: string)
    requires Kempt(max, m) && forall k :: k in keys ==> k in m.rows
    ensures (SumOver(m, keys, n) == 0.0 && Stigmergy.SharesOf(m, keys, n) == []) ||
            (SumOver(m, keys, n) > EPSILON && Stigmergy.SharesOf(m, keys, n) != [])
  {
    if keys != [] {
      SumGap(max, m, keys[..|keys| - 1], n);
      assert keys[|keys| - 1] in m.rows;
    }
  }

  lemma {:induction false} SharesAreEntries(m: JsMap<Entry>, keys: seq<string>, n: string)
    requires forall k :: k in keys ==> k in m.rows
    ensures Stigmergy.SharesOf(m, keys, n) != [] <==> exists k :: k in keys && m.rows[k].nodeId == n
  {
    if keys != [] {
      var front, last := keys[..|keys| - 1], keys[|keys| - 1];
      assert keys == front + [last];
      SharesAreEntries(m, front, n);
      if k :| k in keys && m.rows[k].nodeId == n {
        assert k == last || k in front;
      }
      if k :| k in front && m.rows[k].nodeId == n {
        assert k in keys;
      }
      assert last in keys;
    }
  }

  ghost predicate Marked(entries: JsMap<Entry>, nodeId: string) {
    exists k :: k in entries.rows && entries.rows[k].nodeId == nodeId
  }

  lemma SumTellsMarked(max: Option<real>, m: JsMap<Entry>, n: string)
    requires Kempt(max, m)
    ensures NodeSum(m, n) == 0.0 || NodeSum(m, n) > EPSILON
    ensures NodeSum(m, n) > 0.0 <==> Marked(m, n)
    ensures Marked(m, n) <==> Stigmergy.SharesOf(m, m.keys, n) != []
    ensures Marked(m, n) && max.Some? ==> max.value > EPSILON
  {
    SumGap(max, m, m.keys, n);
    SharesAreEntries(m, m.keys, n);
    if k :| k in m.rows && m.rows[k].nodeId == n {
      assert k in m.keys;
    }
  }

  /** Each total is the sum of its node's entries, and is there only if something is. */
  ghost predicate Agrees(entries: JsMap<Entry>, totals: JsMap<Total>) {
    forall n :: TotalOf(totals, n) == NodeSum(entries, n) && (totals.Has(n) <==> NodeSum(entries, n) > 0.0)
  }

  /** Each total there is lies above nothing and below both the maximum and the sum. */
  ghost predicate Bounded(max: Option<real>, entries: JsMap<Entry>, totals: JsMap<Total>) {
    forall n :: totals.Has(n) ==>
      EPSILON < TotalOf(totals, n) <= NodeSum(entries, n) && AtMost(max, TotalOf(totals, n)) == TotalOf(totals, n)
  }

  /** The entries of one node move by `delta` in all, those of other nodes stay. */
  ghost predicate Shifts(m: JsMap<Entry>, m': JsMap<Entry>, nodeId: string, delta: real) {
    forall n :: NodeSum(m', n) == NodeSum(m, n) + (if n == nodeId then delta else 0.0)
  }

  lemma TotalsFollow(max: Option<real>, m: JsMap<Entry>, m': JsMap<Entry>, totals: JsMap<Total>, nodeId: string,
    delta: real, t: int)
    requires Kempt(max, m') && Shifts(m, m', nodeId, delta) && Agrees(m, totals)
    requires max.Some? ==> max.value > 0.0
    ensures AtMost(max, TotalOf(totals, nodeId) + delta) == TotalOf(totals, nodeId) + delta <==>
              Agrees(m', AdjustTotal(max, totals, nodeId, delta, t))
  {
    hide NodeSum, Kempt;
    var totals' := AdjustTotal(max, totals, nodeId, delta, t);
    SumTellsMarked(max, m', nodeId);
    assert NodeSum(m', nodeId) == TotalOf(totals, nodeId) + delta;
    if AtMost(max, TotalOf(totals, nodeId) + delta) == TotalOf(totals, nodeId) + delta {
      forall n ensures TotalOf(totals', n) == NodeSum(m', n) && (totals'.Has(n) <==> NodeSum(m', n) > 0.0) {
        if n != nodeId {
          assert TotalOf(totals', n) == TotalOf(totals, n) && totals'.Has(n) == totals.Has(n);
        }
      }
    } else {
      assert TotalOf(totals', nodeId) != NodeSum(m', nodeId);
    }
  }

  lemma BoundsFollow(max: Option<real>, m: JsMap<Entry>, m': JsMap<Entry>, totals: JsMap<Total>, nodeId: string,
    delta: real, t: int)
    requires Kempt(max, m) && Kempt(max, m') && Shifts(m, m', nodeId, delta) && Bounded(max, m, totals)
    ensures Bounded(max, m', AdjustTotal(max, totals, nodeId, delta, t))
  {
    hide NodeSum, Kempt;
    SumTellsMarked(max, m, nodeId);
    SumTellsMarked(max, m', nodeId);
    var totals' := AdjustTotal(max, totals, nodeId, delta, t);
    forall n | totals'.Has(n)
      ensures EPSILON < TotalOf(totals', n) <= NodeSum(m', n) && AtMost(max, TotalOf(totals', n)) == TotalOf(totals', n)
    {
      if n != nodeId {
        assert TotalOf(totals', n) == TotalOf(totals, n) && totals.Has(n);
      }
    }
  }

  // ---------------------------------------------------------------------------------------------
  // Marking
  // ---------------------------------------------------------------------------------------------

  /** The entry that a mark would land on belongs to the node marked. */
  predicate Rightful(entries: JsMap<Entry>, nodeId: string, kind: string) {
    var key := MakeKey(nodeId, kind);
    entries.Has(key) ==> entries.rows[key].nodeId == nodeId
  }

  /** Change a mark would make to the total of its node. */
  function Gain(max: Option<real>, f: Field, nodeId: string, kind: string, delta: real): real {
    var key := MakeKey(nodeId, kind);
    Raised(max, f.entries, key, delta) - LevelOf(f.entries, key)
  }

  /** The total of the node stays within the maximum. */
  predicate Fits(max: Option<real>, f: Field, nodeId: string, kind: string, delta: real) {
    var next := TotalOf(f.totals, nodeId) + Gain(max, f, nodeId, kind, delta);
    AtMost(max, next) == next
  }

  lemma MutationIsKempt(max: Option<real>, f: Field, nodeId: string, kind: string, delta: real, t: int)
    requires Kempt(max, f.entries)
    ensures Kempt(max, ApplyMutation(max, f, nodeId, kind, delta, t).entries)
  {
  }

  lemma MutationShifts(max: Option<real>, f: Field, nodeId: string, kind: string, delta: real, t: int)
    requires Kempt(max, f.entries) && Rightful(f.entries, nodeId, kind)
    ensures Shifts(f.entries, ApplyMutation(max, f, nodeId, kind, delta, t).entries, nodeId,
      Gain(max, f, nodeId, kind, delta))
  {
    hide NodeSum, Clamp;
    var key, e := MakeKey(nodeId, kind), Point(max, f, nodeId, kind, delta, t);
    forall n
      ensures NodeSum(Settle(f.entries, key, e), n) ==
                NodeSum(f.entries, n) + (if n == nodeId then Gain(max, f, nodeId, kind, delta) else 0.0)
    {
      SumAfterSettle(f.entries, key, e, n);
    }
  }

  /**
   A mark keeps the totals equal to the sums exactly when the entry it lands on is the node's own and the node's
   total is not cut off at the maximum.
   */
  lemma MarkKeepsAgreementIff(max: Option<real>, f: Field, nodeId: string, kind: string, delta: real, t: int)
    requires Kempt(max, f.entries) && Agrees(f.entries, f.totals) && delta > 0.0 && (max.Some? ==> max.value > 0.0)
    ensures var f' := ApplyMutation(max, f, nodeId, kind, delta, t);
            Agrees(f'.entries, f'.totals) <==> Rightful(f.entries, nodeId, kind) && Fits(max, f, nodeId, kind, delta)
  {
    hide NodeSum, Kempt, Agrees, Raised, Shifts, AdjustTotal, Settle;
    var f' := ApplyMutation(max, f, nodeId, kind, delta, t);
    MutationIsKempt(max, f, nodeId, kind, delta, t);
    if Rightful(f.entries, nodeId, kind) {
      MutationShifts(max, f, nodeId, kind, delta, t);
      TotalsFollow(max, f.entries, f'.entries, f.totals, nodeId, Gain(max, f, nodeId, kind, delta), t);
    } else {
      ClashBreaksAgreement(max, f, nodeId, kind, delta, t);
    }
  }

  /**
   An accepted mark is added to its own entry, unless too little comes of it to keep, and its node's total gains
   what the entry gains. Nothing else changes, and listeners are told.
   */
  lemma MarkAddsUp(env: Env, f: Field, m: Mark)
    requires Kempt(None, f.entries) && Agrees(f.entries, f.totals) && Payload(env, m).Ok?
    requires Rightful(f.entries, m.nodeId, Payload(env, m).value)
    ensures var key, f' := MakeKey(m.nodeId, Payload(env, m).value), MarkOne(env, None, f, m).0;
            var level := LevelOf(f.entries, key);
            && LevelOf(f'.entries, key) == (if level + m.intensity <= EPSILON then 0.0 else level + m.intensity)
            && TotalOf(f'.totals, m.nodeId) == TotalOf(f.totals, m.nodeId) + LevelOf(f'.entries, key) - level
            && (forall k :: k != key ==> f'.entries.Get(k) == f.entries.Get(k))
            && (forall n :: n != m.nodeId ==> f'.totals.Get(n) == f.totals.Get(n))
            && f'.log == f.log + [Emission(
                 Change(m.nodeId, Payload(env, m).value, LevelOf(f'.entries, key), TotalOf(f'.totals, m.nodeId),
                   env.clock(f.ticks)),
                 f'.totals)]
  {
    hide NodeSum, MakeKey;
    var kind := Payload(env, m).value;
    var key, level, total := MakeKey(m.nodeId, kind), LevelOf(f.entries, MakeKey(m.nodeId, kind)),
      TotalOf(f.totals, m.nodeId);
    SumTellsMarked(None, f.entries, m.nodeId);
    assert total == NodeSum(f.entries, m.nodeId);
    if f.entries.Has(key) {
      KemptKey(None, f.entries, key);
      assert Marked(f.entries, m.nodeId);
    }
    var raised := if level + m.intensity <= EPSILON then 0.0 else level + m.intensity;
    assert Raised(None, f.entries, key, m.intensity) == raised;
    assert total + (raised - level) > EPSILON || total + (raised - level) == 0.0;
  }

  /** Landing on the entry of another node takes its intensity away from that node, but not from its total. */
  lemma ClashBreaksAgreement(max: Option<real>, f: Field, nodeId: string, kind: string, delta: real, t: int)
    requires Kempt(max, f.entries) && Agrees(f.entries, f.totals) && delta > 0.0 && !Rightful(f.entries, nodeId, kind)
    ensures var f' := ApplyMutation(max, f, nodeId, kind, delta, t); !Agrees(f'.entries, f'.totals)
  {
    hide NodeSum;
    var f' := ApplyMutation(max, f, nodeId, kind, delta, t);
    var key, e := MakeKey(nodeId, kind), Point(max, f, nodeId, kind, delta, t);
    var robbed := f.entries.rows[key].nodeId;
    SumAfterSettle(f.entries, key, e, robbed);
    assert TotalOf(f'.totals, robbed) == TotalOf(f.totals, robbed);
    assert TotalOf(f'.totals, robbed) != NodeSum(f'.entries, robbed);
  }

  /**
   Two pheromones of different nodes do share a key: `a` with `:b` and `a:` with `b`. Marking one after the other on
   a blank field leaves the total of `a` behind, whatever the amounts.
   */
  lemma KeysCanClash(first: real, second: real, t: int)
    requires first > EPSILON && second > 0.0
    ensures MakeKey("a", ":b") == MakeKey("a:", "b")
    ensures var f1 := ApplyMutation(None, BLANK, "a", ":b", first, t);
            var f2 := ApplyMutation(None, f1, "a:", "b", second, t);
            Agrees(f1.entries, f1.totals) && !Agrees(f2.entries, f2.totals)
  {
    hide NodeSum, Agrees;
    assert MakeKey("a", ":b") == "a:::b" == MakeKey("a:", "b");
    var f1 := ApplyMutation(None, BLANK, "a", ":b", first, t);
    assert Agrees(BLANK.entries, BLANK.totals) by { BlankAgrees(); }
    MutationIsKempt(None, BLANK, "a", ":b", first, t);
    MarkKeepsAgreementIff(None, BLANK, "a", ":b", first, t);
    assert f1.entries.rows["a:::b"] == Entry("a", ":b", first, t);
    assert |"a"| != |"a:"|;
    ClashBreaksAgreement(None, f1, "a:", "b", second, t);
  }

  lemma BlankAgrees()
    ensures Agrees(BLANK.entries, BLANK.totals)
  {
  }

  predicate SeparatorAt(text: string, i: nat) {
    i + 2 <= |text| && text[i] == ':' && text[i + 1] == ':'
  }

  /** The first `::` of the node's keys is the separator. It is enough that the identifier holds no colon. */
  predicate Safe(nodeId: string) {
    forall i :: 0 <= i < |nodeId| ==> !SeparatorAt(nodeId + "::", i)
  }

  lemma NoColonIsSafe(nodeId: string)
    requires ':' !in nodeId
    ensures Safe(nodeId)
  {
  }

  lemma NoEarlySeparator(nodeId: string, kind: string, i: nat)
    requires Safe(nodeId) && i < |nodeId|
    ensures !SeparatorAt(MakeKey(nodeId, kind), i)
  {
    assert !SeparatorAt(nodeId + "::", i);
  }

  lemma SafeKeysTellNodes(a: string, ka: string, b: string, kb: string)
    requires Safe(a) && Safe(b) && MakeKey(a, ka) == MakeKey(b, kb)
    ensures a == b && ka == kb
  {
    var key := MakeKey(a, ka);
    assert SeparatorAt(key, |a|) && SeparatorAt(MakeKey(b, kb), |b|);
    if |b| < |a| {
      NoEarlySeparator(a, ka, |b|);
    } else if |a| < |b| {
      NoEarlySeparator(b, kb, |a|);
    } else {
      assert key[..|a|] == a && key[..|a|] == b;
      assert key[|a| + 2..] == ka && key[|a| + 2..] == kb;
    }
  }

  // ---------------------------------------------------------------------------------------------
  // Whole runs
  // ---------------------------------------------------------------------------------------------

  datatype Op =
    | OpMark(m: Mark)
    | OpBatch(marks: seq<Mark>)
    | OpEvaporate(halfLifeMs: Option<real>)

  function Step(env: Env, max: Option<real>, default: Option<real>, f: Field, op: Op): Field
    requires f.entries.Valid()
  {
    match op
    case OpMark(m) => MarkOne(env, max, f, m).0
    case OpBatch(marks) => BatchMark(env, max, f, marks).0
    case OpEvaporate(halfLifeMs) => Evaporate(env, max, f, HalfLife(halfLifeMs, default)).0
  }

  predicate SafeOp(op: Op) {
    match op
    case OpMark(m) => Safe(m.nodeId)
    case OpBatch(marks) => forall m :: m in marks ==> Safe(m.nodeId)
    case OpEvaporate(_) => true
  }

  ghost predicate Sound(max: Option<real>, f: Field) {
    && Kempt(max, f.entries)
    && f.totals.Valid()
    && (forall k :: k in f.entries.rows ==> Safe(f.entries.rows[k].nodeId))
    && Bounded(max, f.entries, f.totals)
    && (max.None? ==> Agrees(f.entries, f.totals))
  }

  lemma BlankIsSound(max: Option<real>)
    ensures Sound(max, BLANK)
  {
  }

  lemma SafeIsRightful(max: Option<real>, f: Field, nodeId: string, kind: string)
    requires Sound(max, f) && Safe(nodeId)
    ensures Rightful(f.entries, nodeId, kind)
  {
    hide Safe, NodeSum, Agrees, Bounded;
    if f.entries.Has(MakeKey(nodeId, kind)) {
      KemptKey(max, f.entries, MakeKey(nodeId, kind));
      var e := f.entries.rows[MakeKey(nodeId, kind)];
      SafeKeysTellNodes(nodeId, kind, e.nodeId, e.kind);
    }
  }

  lemma MutationKeepsSound(max: Option<real>, f: Field, nodeId: string, kind: string, delta: real, t: int)
    requires Sound(max, f) && Safe(nodeId) && (max.Some? ==> max.value > 0.0)
    ensures Sound(max, ApplyMutation(max, f, nodeId, kind, delta, t))
  {
    hide NodeSum, Raised, Safe, Agrees, Bounded, Kempt;
    var f' := ApplyMutation(max, f, nodeId, kind, delta, t);
    assert f.entries.Valid() by { KemptIsValid(max, f.entries); }
    SafeIsRightful(max, f, nodeId, kind);
    MutationIsKempt(max, f, nodeId, kind, delta, t);
    MutationShifts(max, f, nodeId, kind, delta, t);
    BoundsFollow(max, f.entries, f'.entries, f.totals, nodeId, Gain(max, f, nodeId, kind, delta), t);
    if max.None? {
      TotalsFollow(max, f.entries, f'.entries, f.totals, nodeId, Gain(max, f, nodeId, kind, delta), t);
    }
  }

  lemma KemptIsValid(max: Option<real>, m: JsMap<Entry>)
    requires Kempt(max, m)
    ensures m.Valid()
  {
  }

  lemma KemptKey(max: Option<real>, m: JsMap<Entry>, key: string)
    requires Kempt(max, m) && m.Has(key)
    ensures key == MakeKey(m.rows[key].nodeId, m.rows[key].kind)
    ensures m.rows[key].intensity > EPSILON && AtMost(max, m.rows[key].intensity) == m.rows[key].intensity
  {
  }

  lemma {:induction false} StageKeepsSound(env: Env, max: Option<real>, f: Field, marks: seq<Mark>)
    requires Sound(max, f) && (max.Some? ==> max.value > 0.0) && forall m :: m in marks ==> Safe(m.nodeId)
    ensures Sound(max, StageMarks(env, max, f, marks).field)
  {
    hide Sound, Safe, ApplyMutation;
    if marks != [] {
      var front, m := marks[..|marks| - 1], marks[|marks| - 1];
      StageKeepsSound(env, max, f, front);
      var s := StageMarks(env, max, f, front);
      if s.failed.None? && Payload(env, m).Ok? {
        MutationKeepsSound(max, s.field, m.nodeId, Payload(env, m).value, m.intensity, env.clock(s.field.ticks));
        SoundIgnoresClock(max,
          ApplyMutation(max, s.field, m.nodeId, Payload(env, m).value, m.intensity, env.clock(s.field.ticks)),
          Place(env, max, s.field, m.nodeId, Payload(env, m).value, m.intensity));
      }
    }
  }

  lemma SoundIgnoresClock(max: Option<real>, f: Field, f': Field)
    requires Sound(max, f) && f'.entries == f.entries && f'.totals == f.totals
    ensures Sound(max, f')
  {
  }

  /** Evaporation moves an entry and its node's total alike. */
  lemma EvaporateKeyShifts(env: Env, max: Option<real>, h: real, f: Field, key: string, t: int)
    requires Kempt(max, f.entries) && f.entries.Has(key) && h > 0.0
    ensures var e, f' := f.entries.rows[key], EvaporateKey(env, max, h, f, key, t);
            && Kempt(max, f'.entries)
            && Shifts(f.entries, f'.entries, e.nodeId,
                 if Negligible(env, max, h, e, t) then 0.0 else Decayed(env, max, h, e, t) - e.intensity)
  {
    hide NodeSum, Negligible, Decayed;
    var e, f' := f.entries.rows[key], EvaporateKey(env, max, h, f, key, t);
    var next := if Negligible(env, max, h, e, t) then e.intensity else Decayed(env, max, h, e, t);
    var e' := e.(intensity := next, updatedAt := t);
    assert f'.entries == Settle(f.entries, key, e');
    forall n
      ensures NodeSum(f'.entries, n) == NodeSum(f.entries, n) + (if n == e.nodeId then next - e.intensity else 0.0) {
      DecayedLevel(env, max, h, e, t);
      SumAfterSettle(f.entries, key, e', n);
    }
    DecayedLevel(env, max, h, e, t);
  }

  /** A level in range decays to nothing or to a level in range, and never grows. */
  lemma DecayedLevel(env: Env, max: Option<real>, h: real, e: Entry, t: int)
    requires h > 0.0 && e.intensity > EPSILON && AtMost(max, e.intensity) == e.intensity
    ensures var next := Decayed(env, max, h, e, t);
            && (next == 0.0 || next > EPSILON) && AtMost(max, next) == next
            && (Decays(env) ==> next <= e.intensity)
  {
    hide Decays, Fade, Factor;
    if t > e.updatedAt && Decays(env) {
      FactorInRange(env, h, e, t);
      ShrinksBy(e.intensity, Factor(env, h, e, t));
    }
  }

  lemma FactorInRange(env: Env, h: real, e: Entry, t: int)
    requires Decays(env) && h > 0.0 && t > e.updatedAt
    ensures 0.0 <= Factor(env, h, e, t) <= 1.0
  {
    QuotientIsPositive((t - e.updatedAt) as real, h);
  }

  lemma ShrinksBy(a: real, factor: real)
    requires a > 0.0 && 0.0 <= factor <= 1.0
    ensures 0.0 <= Fade(a, factor) <= a
  {
    SignOf(factor, a);
    SignOf(1.0 - factor, a);
    assert (1.0 - factor) * a == a - a * factor;
  }

  lemma EvaporateKeyBalances(env: Env, max: Option<real>, h: real, f: Field, key: string, t: int)
    requires Kempt(max, f.entries) && Bounded(max, f.entries, f.totals) && f.totals.Valid()
    requires f.entries.Has(key) && h > 0.0 && (max.Some? ==> max.value > 0.0) && Decays(env)
    ensures var f' := EvaporateKey(env, max, h, f, key, t);
            && Kempt(max, f'.entries) && Bounded(max, f'.entries, f'.totals) && f'.totals.Valid()
            && (Agrees(f.entries, f.totals) ==> Agrees(f'.entries, f'.totals))
  {
    hide NodeSum, Decayed, Kempt, Bounded, Agrees, Decays;
    var e, f' := f.entries.rows[key], EvaporateKey(env, max, h, f, key, t);
    EvaporateKeyShifts(env, max, h, f, key, t);
    if Negligible(env, max, h, e, t) {
      UnshiftedKeeps(max, f.entries, f'.entries, f.totals, e.nodeId);
    } else {
      var delta := Decayed(env, max, h, e, t) - e.intensity;
      BoundsFollow(max, f.entries, f'.entries, f.totals, e.nodeId, delta, t);
      if Agrees(f.entries, f.totals) {
        KemptKey(max, f.entries, key);
        DecayedLevel(env, max, h, e, t);
        LossFits(max, f, e.nodeId, delta);
        TotalsFollow(max, f.entries, f'.entries, f.totals, e.nodeId, delta, t);
      }
    }
  }

  lemma EvaporateKeyKeeps(env: Env, max: Option<real>, h: real, f: Field, key: string, t: int)
    requires Sound(max, f) && f.entries.Has(key) && h > 0.0 && (max.Some? ==> max.value > 0.0) && Decays(env)
    ensures var f' := EvaporateKey(env, max, h, f, key, t);
            Sound(max, f') && (Agrees(f.entries, f.totals) ==> Agrees(f'.entries, f'.totals))
  {
    hide NodeSum, Decayed, Kempt, Safe, Bounded, Agrees, AdjustTotal, Decays;
    EvaporateKeyBalances(env, max, h, f, key, t);
  }

  lemma UnshiftedKeeps(max: Option<real>, m: JsMap<Entry>, m': JsMap<Entry>, totals: JsMap<Total>, nodeId: string)
    requires Shifts(m, m', nodeId, 0.0)
    ensures Agrees(m, totals) ==> Agrees(m', totals)
    ensures Bounded(max, m, totals) ==> Bounded(max, m', totals)
  {
    hide NodeSum;
    assert forall n :: NodeSum(m', n) == NodeSum(m, n);
  }

  lemma LossFits(max: Option<real>, f: Field, nodeId: string, delta: real)
    requires Bounded(max, f.entries, f.totals) && delta <= 0.0 && (max.Some? ==> max.value > 0.0)
    ensures AtMost(max, TotalOf(f.totals, nodeId) + delta) == TotalOf(f.totals, nodeId) + delta
  {
  }

  lemma {:induction false} EvaporateKeysKeep(env: Env, max: Option<real>, h: real, f: Field, keys: seq<string>, t: int)
    requires Sound(max, f) && h > 0.0 && (max.Some? ==> max.value > 0.0) && Decays(env)
    requires (forall k :: k in keys ==> f.entries.Has(k)) && Distinct(keys)
    ensures var f' := EvaporateKeys(env, max, h, f, keys, t);
            Sound(max, f') && (Agrees(f.entries, f.totals) ==> Agrees(f'.entries, f'.totals))
  {
    hide Sound, Agrees, EvaporateKey, Decays;
    if keys != [] {
      var front, key := keys[..|keys| - 1], keys[|keys| - 1];
      EvaporateKeysKeep(env, max, h, f, front, t);
      var f' := EvaporateKeys(env, max, h, f, front, t);
      assert key !in front && f.entries.Has(key) && f'.entries.Get(key) == f.entries.Get(key);
      EvaporateKeyKeeps(env, max, h, f', key, t);
    }
  }

  lemma StepKeepsSound(env: Env, max: Option<real>, default: Option<real>, f: Field, op: Op)
    requires Sound(max, f) && (max.Some? ==> max.value > 0.0) && Decays(env) && SafeOp(op)
    ensures Sound(max, Step(env, max, default, f, op))
    ensures op.OpEvaporate? && Agrees(f.entries, f.totals) ==>
              var f' := Step(env, max, default, f, op); Agrees(f'.entries, f'.totals)
  {
    hide Agrees, ApplyMutation, EvaporateKeys, StageMarks, AnnounceAll, Decays, Bounded, Safe;
    var f' := Step(env, max, default, f, op);
    match op
    case OpMark(m) =>
      if Payload(env, m).Ok? {
        MutationKeepsSound(max, f, m.nodeId, Payload(env, m).value, m.intensity, env.clock(f.ticks));
      }
    case OpBatch(marks) =>
      StageKeepsSound(env, max, f, marks);
    case OpEvaporate(halfLifeMs) =>
      if HalfLife(halfLifeMs, default).Ok? {
        var timed := f.(ticks := f.ticks + 1);
        SoundIgnoresClock(max, f, timed);
        EvaporateKeysKeep(env, max, HalfLife(halfLifeMs, default).value, timed, f.entries.keys, env.clock(f.ticks));
      }
  }

  /** The field after a run of operations, starting blank. */
  ghost function Run(env: Env, limits: Limits, default: Option<real>, ops: seq<Op>): (f: Field)
    ensures Kempt(limits.max, f.entries)
  {
    if ops == [] then
      BlankIsSound(limits.max);
      BLANK
    else
      var f := Run(env, limits, default, ops[..|ops| - 1]);
      StepKeepsKempt(env, limits.max, default, f, ops[|ops| - 1]);
      Step(env, limits.max, default, f, ops[|ops| - 1])
  }

  lemma StepKeepsKempt(env: Env, max: Option<real>, default: Option<real>, f: Field, op: Op)
    requires Kempt(max, f.entries)
    ensures Kempt(max, Step(env, max, default, f, op).entries)
  {
    hide Kempt, ApplyMutation, EvaporateKeys, StageMarks, AnnounceAll;
    KemptIsValid(max, f.entries);
    match op
    case OpMark(m) =>
      if Payload(env, m).Ok? {
        MutationIsKempt(max, f, m.nodeId, Payload(env, m).value, m.intensity, env.clock(f.ticks));
      }
    case OpBatch(marks) =>
      StageKeepsKempt(env, max, f, marks);
    case OpEvaporate(halfLifeMs) =>
      if HalfLife(halfLifeMs, default).Ok? {
        var timed := f.(ticks := f.ticks + 1);
        ValidKeys(f.entries);
        EvaporateKeepsKempt(env, max, HalfLife(halfLifeMs, default).value, timed, f.entries.keys, env.clock(f.ticks));
      }
  }

  lemma ValidKeys(m: JsMap<Entry>)
    requires m.Valid()
    ensures (forall k :: k in m.keys ==> m.Has(k)) && Distinct(m.keys)
  {
  }

  lemma {:induction false} StageKeepsKempt(env: Env, max: Option<real>, f: Field, marks: seq<Mark>)
    requires Kempt(max, f.entries)
    ensures Kempt(max, StageMarks(env, max, f, marks).field.entries)
  {
    hide Kempt, ApplyMutation;
    if marks != [] {
      var front, m := marks[..|marks| - 1], marks[|marks| - 1];
      StageKeepsKempt(env, max, f, front);
      var s := StageMarks(env, max, f, front);
      if s.failed.None? && Payload(env, m).Ok? {
        MutationIsKempt(max, s.field, m.nodeId, Payload(env, m).value, m.intensity, env.clock(s.field.ticks));
      }
    }
  }

  lemma {:induction false} EvaporateKeepsKempt(
    env: Env, max: Option<real>, h: real, f: Field, keys: seq<string>, t: int)
    requires Kempt(max, f.entries) && h > 0.0 && (forall k :: k in keys ==> f.entries.Has(k)) && Distinct(keys)
    ensures Kempt(max, EvaporateKeys(env, max, h, f, keys, t).entries)
  {
    hide Kempt, EvaporateKey;
    if keys != [] {
      var front, key := keys[..|keys| - 1], keys[|keys| - 1];
      EvaporateKeepsKempt(env, max, h, f, front, t);
      var f' := EvaporateKeys(env, max, h, f, front, t);
      assert key !in front && f.entries.Has(key) && f'.entries.Get(key) == f.entries.Get(key);
      EvaporateKeyShifts(env, max, h, f', key, t);
    }
  }

  /** While node identifiers keep keys apart, the field stays sound. */
  lemma {:induction false} RunIsSound(env: Env, limits: Limits, default: Option<real>, ops: seq<Op>)
    requires LimitsValid(limits) && Decays(env) && forall op :: op in ops ==> SafeOp(op)
    ensures Sound(limits.max, Run(env, limits, default, ops))
  {
    hide Sound, SafeOp, Step;
    if ops == [] {
      BlankIsSound(limits.max);
    } else {
      RunIsSound(env, limits, default, ops[..|ops| - 1]);
      StepKeepsSound(env, limits.max, default, Run(env, limits, default, ops[..|ops| - 1]), ops[|ops| - 1]);
    }
  }

  /**
   With no maximum, after any marks, batches (failed ones too) and evaporations, the total kept for a node is the
   sum of its entries, and it is kept exactly while an entry is.
   */
  lemma TotalsAreSums(env: Env, limits: Limits, default: Option<real>, ops: seq<Op>, nodeId: string)
    requires LimitsValid(limits) && limits.max.None? && Decays(env) && forall op :: op in ops ==> SafeOp(op)
    ensures var f := Run(env, limits, default, ops);
            && TotalOf(f.totals, nodeId) == NodeSum(f.entries, nodeId)
            && (f.totals.Has(nodeId) <==> Marked(f.entries, nodeId))
  {
    hide Run, NodeSum;
    RunIsSound(env, limits, default, ops);
    SumTellsMarked(limits.max, Run(env, limits, default, ops).entries, nodeId);
  }

  /** With a maximum, a kept total is positive, at most the maximum, and at most the sum of its node's entries. */
  lemma TotalsAreBounded(env: Env, limits: Limits, default: Option<real>, ops: seq<Op>, nodeId: string)
    requires LimitsValid(limits) && Decays(env) && forall op :: op in ops ==> SafeOp(op)
    ensures var f := Run(env, limits, default, ops);
            f.totals.Has(nodeId) ==>
              && 0.0 < TotalOf(f.totals, nodeId) <= NodeSum(f.entries, nodeId)
              && (limits.max.Some? ==> TotalOf(f.totals, nodeId) <= limits.max.value)
              && Marked(f.entries, nodeId)
  {
    hide Run, NodeSum;
    RunIsSound(env, limits, default, ops);
    SumTellsMarked(limits.max, Run(env, limits, default, ops).entries, nodeId);
  }

  // ---------------------------------------------------------------------------------------------
  // Totals under a maximum
  // ---------------------------------------------------------------------------------------------

  /** Some total is below the sum of its node. */
  ghost predicate Short(entries: JsMap<Entry>, totals: JsMap<Total>) {
    exists n :: TotalOf(totals, n) < NodeSum(entries, n)
  }

  lemma ShortOrAgrees(max: Option<real>, f: Field)
    requires Kempt(max, f.entries) && Bounded(max, f.entries, f.totals)
    ensures Agrees(f.entries, f.totals) <==> !Short(f.entries, f.totals)
  {
    hide NodeSum, Kempt;
    if !Short(f.entries, f.totals) {
      forall n
        ensures TotalOf(f.totals, n) == NodeSum(f.entries, n) && (f.totals.Has(n) <==> NodeSum(f.entries, n) > 0.0) {
        SumTellsMarked(max, f.entries, n);
        assert TotalOf(f.totals, n) >= NodeSum(f.entries, n);
      }
    }
  }

  /** What a node is short of, no mark makes up for. */
  lemma MarkStaysShort(max: Option<real>, f: Field, nodeId: string, kind: string, delta: real, t: int)
    requires Kempt(max, f.entries) && Bounded(max, f.entries, f.totals) && Short(f.entries, f.totals) && delta > 0.0
    requires Rightful(f.entries, nodeId, kind) && (max.Some? ==> max.value > 0.0)
    ensures var f' := ApplyMutation(max, f, nodeId, kind, delta, t); Short(f'.entries, f'.totals)
  {
    hide NodeSum, Raised;
    var f' := ApplyMutation(max, f, nodeId, kind, delta, t);
    var gain := Gain(max, f, nodeId, kind, delta);
    var n :| TotalOf(f.totals, n) < NodeSum(f.entries, n);
    MutationShifts(max, f, nodeId, kind, delta, t);
    assert NodeSum(f'.entries, n) == NodeSum(f.entries, n) + (if n == nodeId then gain else 0.0);
    MarkGains(max, f, nodeId, kind, delta);
    assert TotalOf(f'.totals, n) < NodeSum(f'.entries, n);
  }

  lemma MarkGains(max: Option<real>, f: Field, nodeId: string, kind: string, delta: real)
    requires Kempt(max, f.entries) && delta > 0.0 && (max.Some? ==> max.value > 0.0)
    ensures Gain(max, f, nodeId, kind, delta) >= 0.0
  {
    var key := MakeKey(nodeId, kind);
    if f.entries.Has(key) {
      KemptKey(max, f.entries, key);
    }
  }

  /** The mark is refused, or it lands on an entry of its own node, whose total stays within the maximum. */
  predicate MarkFits(env: Env, max: Option<real>, f: Field, m: Mark) {
    Payload(env, m).Ok? ==>
      && Rightful(f.entries, m.nodeId, Payload(env, m).value)
      && Fits(max, f, m.nodeId, Payload(env, m).value, m.intensity)
  }

  /** Each mark of the batch fits when its turn comes. */
  predicate EachFits(env: Env, max: Option<real>, f: Field, marks: seq<Mark>) {
    marks == [] || (
      && EachFits(env, max, f, marks[..|marks| - 1])
      && MarkFits(env, max, StageMarks(env, max, f, marks[..|marks| - 1]).field, marks[|marks| - 1]))
  }

  /** A batch that fails as a whole leaves nothing that would have to fit. */
  predicate OpFits(env: Env, max: Option<real>, f: Field, op: Op) {
    match op
    case OpMark(m) => MarkFits(env, max, f, m)
    case OpBatch(marks) => StageMarks(env, max, f, marks).failed.None? ==> EachFits(env, max, f, marks)
    case OpEvaporate(_) => true
  }

  lemma PlaceAgreesIff(env: Env, max: Option<real>, f: Field, nodeId: string, kind: string, delta: real)
    requires Sound(max, f) && Safe(nodeId) && delta > 0.0 && (max.Some? ==> max.value > 0.0)
    ensures var f' := Place(env, max, f, nodeId, kind, delta);
            && Sound(max, f')
            && Rightful(f.entries, nodeId, kind)
            && (Agrees(f'.entries, f'.totals) <==> Agrees(f.entries, f.totals) && Fits(max, f, nodeId, kind, delta))
  {
    hide NodeSum, Safe, Agrees, Bounded, Kempt, ApplyMutation, Fits, Short;
    var t := env.clock(f.ticks);
    var f' := ApplyMutation(max, f, nodeId, kind, delta, t);
    SafeIsRightful(max, f, nodeId, kind);
    MutationKeepsSound(max, f, nodeId, kind, delta, t);
    SoundIgnoresClock(max, f', Place(env, max, f, nodeId, kind, delta));
    if Agrees(f.entries, f.totals) {
      MarkKeepsAgreementIff(max, f, nodeId, kind, delta, t);
    } else {
      ShortOrAgrees(max, f);
      MarkStaysShort(max, f, nodeId, kind, delta, t);
      ShortOrAgrees(max, f');
    }
  }

  lemma {:induction false} StageAgreesIff(env: Env, max: Option<real>, f: Field, marks: seq<Mark>)
    requires Sound(max, f) && (max.Some? ==> max.value > 0.0) && forall m :: m in marks ==> Safe(m.nodeId)
    requires Agrees(f.entries, f.totals) && StageMarks(env, max, f, marks).failed.None?
    ensures var f' := StageMarks(env, max, f, marks).field;
            Sound(max, f') && (Agrees(f'.entries, f'.totals) <==> EachFits(env, max, f, marks))
  {
    hide Sound, Safe, Agrees, Place, Point, Fits;
    if marks != [] {
      var front, m := marks[..|marks| - 1], marks[|marks| - 1];
      StageAgreesIff(env, max, f, front);
      var s := StageMarks(env, max, f, front);
      PlaceAgreesIff(env, max, s.field, m.nodeId, Payload(env, m).value, m.intensity);
    }
  }

  /** One operation on a field whose totals agree leaves them so exactly when its marks fit. */
  lemma StepAgreesIff(env: Env, max: Option<real>, default: Option<real>, f: Field, op: Op)
    requires Sound(max, f) && (max.Some? ==> max.value > 0.0) && Decays(env) && SafeOp(op)
    requires Agrees(f.entries, f.totals)
    ensures var f' := Step(env, max, default, f, op);
            Agrees(f'.entries, f'.totals) <==> OpFits(env, max, f, op)
  {
    hide Agrees, Place, Point, StageMarks, AnnounceAll, Decays, Fits, Evaporate, EachFits, Safe, Sound;
    match op
    case OpMark(m) =>
      if Payload(env, m).Ok? {
        PlaceAgreesIff(env, max, f, m.nodeId, Payload(env, m).value, m.intensity);
      }
    case OpBatch(marks) =>
      if StageMarks(env, max, f, marks).failed.None? {
        StageAgreesIff(env, max, f, marks);
      }
    case OpEvaporate(_) =>
      SoundIsKempt(max, f);
      StepKeepsSound(env, max, default, f, op);
  }

  lemma SoundIsKempt(max: Option<real>, f: Field)
    requires Sound(max, f)
    ensures Kempt(max, f.entries)
  {
  }

  /** Every mark of the run fits when it is placed. */
  ghost predicate AllFit(env: Env, limits: Limits, default: Option<real>, ops: seq<Op>) {
    ops == [] || (
      && AllFit(env, limits, default, ops[..|ops| - 1])
      && OpFits(env, limits.max, Run(env, limits, default, ops[..|ops| - 1]), ops[|ops| - 1]))
  }

  /** Totals and sums agree after every operation of the run. */
  ghost predicate AgreesThroughout(env: Env, limits: Limits, default: Option<real>, ops: seq<Op>) {
    var f := Run(env, limits, default, ops);
    Agrees(f.entries, f.totals) && (ops != [] ==> AgreesThroughout(env, limits, default, ops[..|ops| - 1]))
  }

  /**
   Whatever the maximum, over any run of marks, batches and evaporations each total is the sum of its node's entries
   after every operation if and only if every mark fits when it is placed: the first one that does not fit breaks it.
   */
  lemma {:induction false} TotalsAgreeIffAllFit(env: Env, limits: Limits, default: Option<real>, ops: seq<Op>)
    requires LimitsValid(limits) && Decays(env) && forall op :: op in ops ==> SafeOp(op)
    ensures AgreesThroughout(env, limits, default, ops) <==> AllFit(env, limits, default, ops)
  {
    hide Agrees, OpFits, Step, SafeOp, Sound;
    if ops == [] {
      BlankAgrees();
    } else {
      var front := ops[..|ops| - 1];
      TotalsAgreeIffAllFit(env, limits, default, front);
      RunIsSound(env, limits, default, front);
      var f := Run(env, limits, default, front);
      if Agrees(f.entries, f.totals) {
        StepAgreesIff(env, limits.max, default, f, ops[|ops| - 1]);
      }
    }
  }

  // Identifiers that do not keep keys apart

  ghost predicate Balanced(max: Option<real>, f: Field) {
    Kempt(max, f.entries) && f.totals.Valid() && Bounded(max, f.entries, f.totals) && Agrees(f.entries, f.totals)
  }

  /** Totals and sums agree after each mark of the batch. */
  ghost predicate AgreesWhileStaging(env: Env, max: Option<real>, f: Field, marks: seq<Mark>) {
    var f' := StageMarks(env, max, f, marks).field;
    Agrees(f'.entries, f'.totals) && (marks != [] ==> AgreesWhileStaging(env, max, f, marks[..|marks| - 1]))
  }

  /** Totals and sums agree after the operation, and after each mark of a batch that succeeds. */
  ghost predicate AgreesDuring(env: Env, max: Option<real>, default: Option<real>, f: Field, op: Op)
    requires f.entries.Valid()
  {
    var f' := Step(env, max, default, f, op);
    && Agrees(f'.entries, f'.totals)
    && (op.OpBatch? && StageMarks(env, max, f, op.marks).failed.None? ==> AgreesWhileStaging(env, max, f, op.marks))
  }

  ghost predicate AgreesAtEachMark(env: Env, limits: Limits, default: Option<real>, ops: seq<Op>) {
    ops == [] || (
      && AgreesAtEachMark(env, limits, default, ops[..|ops| - 1])
      && AgreesDuring(env, limits.max, default, Run(env, limits, default, ops[..|ops| - 1]), ops[|ops| - 1]))
  }

  lemma PlaceBalancesIff(env: Env, max: Option<real>, f: Field, nodeId: string, kind: string, delta: real)
    requires Balanced(max, f) && delta > 0.0 && (max.Some? ==> max.value > 0.0)
    ensures var f' := Place(env, max, f, nodeId, kind, delta);
            && (Agrees(f'.entries, f'.totals) <==>
                  Rightful(f.entries, nodeId, kind) && Fits(max, f, nodeId, kind, delta))
            && (Agrees(f'.entries, f'.totals) ==> Balanced(max, f'))
  {
    hide NodeSum, Agrees, Bounded, Kempt, Fits, Raised;
    var t := env.clock(f.ticks);
    var f' := ApplyMutation(max, f, nodeId, kind, delta, t);
    MarkKeepsAgreementIff(max, f, nodeId, kind, delta, t);
    MutationIsKempt(max, f, nodeId, kind, delta, t);
    if Rightful(f.entries, nodeId, kind) {
      MutationShifts(max, f, nodeId, kind, delta, t);
      BoundsFollow(max, f.entries, f'.entries, f.totals, nodeId, Gain(max, f, nodeId, kind, delta), t);
    }
  }

  lemma {:induction false} StageBalancesIff(env: Env, max: Option<real>, f: Field, marks: seq<Mark>)
    requires Balanced(max, f) && (max.Some? ==> max.value > 0.0) && StageMarks(env, max, f, marks).failed.None?
    ensures AgreesWhileStaging(env, max, f, marks) <==> EachFits(env, max, f, marks)
    ensures EachFits(env, max, f, marks) ==> Balanced(max, StageMarks(env, max, f, marks).field)
  {
    hide Agrees, Bounded, Kempt, Place, Point, Fits, Rightful;
    if marks != [] {
      var front, m := marks[..|marks| - 1], marks[|marks| - 1];
      StageBalancesIff(env, max, f, front);
      if EachFits(env, max, f, front) {
        var s := StageMarks(env, max, f, front);
        PlaceBalancesIff(env, max, s.field, m.nodeId, Payload(env, m).value, m.intensity);
      }
    }
  }

  lemma {:induction false} EvaporateBalances(
    env: Env, max: Option<real>, h: real, f: Field, keys: seq<string>, t: int)
    requires Balanced(max, f) && h > 0.0 && (max.Some? ==> max.value > 0.0) && Decays(env)
    requires (forall k :: k in keys ==> f.entries.Has(k)) && Distinct(keys)
    ensures Balanced(max, EvaporateKeys(env, max, h, f, keys, t))
  {
    hide Agrees, Bounded, Kempt, EvaporateKey, Decays;
    if keys != [] {
      var front, key := keys[..|keys| - 1], keys[|keys| - 1];
      EvaporateBalances(env, max, h, f, front, t);
      var f' := EvaporateKeys(env, max, h, f, front, t);
      assert key !in front && f.entries.Has(key) && f'.entries.Get(key) == f.entries.Get(key);
      EvaporateKeyBalances(env, max, h, f', key, t);
    }
  }

  lemma StepBalancesIff(env: Env, max: Option<real>, default: Option<real>, f: Field, op: Op)
    requires Balanced(max, f) && (max.Some? ==> max.value > 0.0) && Decays(env) && f.entries.Valid()
    ensures AgreesDuring(env, max, default, f, op) <==> OpFits(env, max, f, op)
    ensures OpFits(env, max, f, op) ==> Balanced(max, Step(env, max, default, f, op))
  {
    hide Agrees, Bounded, Kempt, ApplyMutation, EvaporateKeys, StageMarks;
    hide AnnounceAll, EachFits, Fits, Rightful, Decays;
    match op
    case OpMark(m) =>
      if Payload(env, m).Ok? {
        PlaceBalancesIff(env, max, f, m.nodeId, Payload(env, m).value, m.intensity);
      }
    case OpBatch(marks) =>
      if StageMarks(env, max, f, marks).failed.None? {
        StageBalancesIff(env, max, f, marks);
      }
    case OpEvaporate(halfLifeMs) =>
      if HalfLife(halfLifeMs, default).Ok? {
        var timed := f.(ticks := f.ticks + 1);
        ValidKeys(f.entries);
        EvaporateBalances(env, max, HalfLife(halfLifeMs, default).value, timed, f.entries.keys, env.clock(f.ticks));
      }
  }

  lemma BlankIsBalanced(max: Option<real>)
    ensures Balanced(max, BLANK)
  {
  }

  /**
   The same for any node identifiers, those whose keys clash included, when the moments inside a batch that succeeds
   are looked at too: each total is the sum of its node's entries throughout if and only if every mark lands on an
   entry of its own node and is not cut at the maximum.
   */
  lemma {:induction false} AnyTotalsAgreeIffAllFit(env: Env, limits: Limits, default: Option<real>, ops: seq<Op>)
    requires LimitsValid(limits) && Decays(env)
    ensures AgreesAtEachMark(env, limits, default, ops) <==> AllFit(env, limits, default, ops)
    ensures AllFit(env, limits, default, ops) ==> Balanced(limits.max, Run(env, limits, default, ops))
  {
    hide Balanced, OpFits, Step, AgreesDuring;
    if ops == [] {
      BlankIsBalanced(limits.max);
    } else {
      var front := ops[..|ops| - 1];
      AnyTotalsAgreeIffAllFit(env, limits, default, front);
      if AllFit(env, limits, default, front) {
        StepBalancesIff(env, limits.max, default, Run(env, limits, default, front), ops[|ops| - 1]);
      }
    }
  }

  /** While every mark has fitted, a node has a total exactly when it has an entry, and it is the sum of its entries. */
  lemma FittingTotalsAreSums(env: Env, limits: Limits, default: Option<real>, ops: seq<Op>, nodeId: string)
    requires LimitsValid(limits) && Decays(env) && AllFit(env, limits, default, ops)
    ensures var f := Run(env, limits, default, ops);
            && TotalOf(f.totals, nodeId) == NodeSum(f.entries, nodeId)
            && (f.totals.Has(nodeId) <==> Marked(f.entries, nodeId))
  {
    hide Run, NodeSum, AllFit;
    AnyTotalsAgreeIffAllFit(env, limits, default, ops);
    SumTellsMarked(limits.max, Run(env, limits, default, ops).entries, nodeId);
  }

  const FULL := Field(
    JsMap(["n::a", "n::b"], map["n::a" := Entry("n", "a", 10.0, 0), "n::b" := Entry("n", "b", 10.0, 0)]),
    JsMap(["n"], map["n" := Total(10.0, 0)]), 0, [])

  const HALF_FULL := Field(JsMap(["n::a"], map["n::a" := Entry("n", "a", 10.0, 0)]),
    JsMap(["n"], map["n" := Total(10.0, 0)]), 0, [])

  lemma FirstTen()
    ensures ApplyMutation(Some(10.0), BLANK, "n", "a", 10.0, 0) == HALF_FULL
  {
    assert MakeKey("n", "a") == "n::a";
    assert [] + ["n::a"] == ["n::a"] && [] + ["n"] == ["n"];
  }

  lemma SecondEntry()
    ensures MakeKey("n", "b") == "n::b"
    ensures LevelOf(HALF_FULL.entries, "n::b") == 0.0 && Raised(Some(10.0), HALF_FULL.entries, "n::b", 10.0) == 10.0
    ensures Settle(HALF_FULL.entries, "n::b", Entry("n", "b", 10.0, 0)) == FULL.entries
  {
    assert "n::a"[3] != "n::b"[3];
    assert ["n::a"] + ["n::b"] == ["n::a", "n::b"];
  }

  lemma SecondTotal()
    ensures AdjustTotal(Some(10.0), HALF_FULL.totals, "n", 10.0, 0) == FULL.totals
  {
  }

  /** Ten and ten under a maximum of ten. */
  lemma CutTotal()
    ensures ApplyMutation(Some(10.0), ApplyMutation(Some(10.0), BLANK, "n", "a", 10.0, 0), "n", "b", 10.0, 0) == FULL
  {
    hide Settle, AdjustTotal, Raised, LevelOf, MakeKey;
    FirstTen();
    SecondEntry();
    SecondTotal();
  }

  lemma Halved(env: Env, f: Field, key: string)
    requires env.halve(1.0) == 0.5 && f.entries.Has(key)
    requires f.entries.rows[key].nodeId == "n" && f.entries.rows[key].intensity == 10.0
      && f.entries.rows[key].updatedAt == 0
    requires f.totals.Valid()
    ensures var f' := EvaporateKey(env, Some(10.0), 1000.0, f, key, 1000);
            && LevelOf(f'.entries, key) == 5.0 && (forall k :: k != key ==> f'.entries.Get(k) == f.entries.Get(k))
            && f'.totals.Valid()
            && (if TotalOf(f.totals, "n") <= 5.0 then !f'.totals.Has("n") else
                TotalOf(f.totals, "n") <= 10.0 ==> TotalOf(f'.totals, "n") == Kept(TotalOf(f.totals, "n") - 5.0))
  {
    var e := f.entries.rows[key];
    assert (1000 - e.updatedAt) as real / 1000.0 == 1.0;
    assert Decayed(env, Some(10.0), 1000.0, e, 1000) == 5.0;
  }

  /**
   With a maximum the lower bound is lost: a total cut off at the maximum can be used up while entries remain.
   Ten and ten under a maximum of ten, halved once: both entries stand at five and the node has no total.
   */
  lemma CutTotalCanVanish(env: Env)
    requires env.halve(1.0) == 0.5
    ensures FULL.entries.Valid() && FULL.totals.Valid()
    ensures var f := EvaporateKeys(env, Some(10.0), 1000.0, FULL, ["n::a", "n::b"], 1000);
            !f.totals.Has("n") && LevelOf(f.entries, "n::a") == 5.0 && LevelOf(f.entries, "n::b") == 5.0
  {
    hide EvaporateKey;
    var keys := ["n::a", "n::b"];
    assert keys[0][3] != keys[1][3];
    assert keys[..1] == ["n::a"] && keys[..1][..0] == [];
    assert FULL.entries.Has("n::a") && FULL.entries.Has("n::b");
    var start := EvaporateKeys(env, Some(10.0), 1000.0, FULL, [], 1000);
    assert start == FULL;
    Halved(env, FULL, "n::a");
    var f := EvaporateKeys(env, Some(10.0), 1000.0, FULL, keys[..1], 1000);
    assert f == EvaporateKey(env, Some(10.0), 1000.0, FULL, "n::a", 1000);
    assert f.entries.Get("n::b") == FULL.entries.Get("n::b");
    Halved(env, f, "n::b");
    var g := EvaporateKeys(env, Some(10.0), 1000.0, FULL, keys, 1000);
    assert g == EvaporateKey(env, Some(10.0), 1000.0, f, "n::b", 1000);
    assert g.entries.Get("n::a") == f.entries.Get("n::a");
  }

  // ---------------------------------------------------------------------------------------------
  // Batches
  // ---------------------------------------------------------------------------------------------

  /** The marks made one by one; `None` as soon as one is refused. */
  function MarkEach(env: Env, max: Option<real>, f: Field, marks: seq<Mark>): Option<Field> {
    if marks == [] then Some(f)
    else
      match MarkEach(env, max, f, marks[..|marks| - 1])
      case None => None
      case Some(f') =>
        if Payload(env, marks[|marks| - 1]).Ok? then Some(MarkOne(env, max, f', marks[|marks| - 1]).0) else None
  }

  /** The staged batch has done what the single marks did, holding their events back. */
  ghost predicate HoldsBack(s: Staged, each: Field, log: seq<Emission>, n: nat) {
    && s.failed.None? && s.field == each.(log := log)
    && |s.changes| == n && |each.log| == |log| + n && log <= each.log
    && forall i :: 0 <= i < n ==> s.changes[i] == each.log[|log| + i].change
  }

  lemma OneMoreHeldBack(env: Env, max: Option<real>, s: Staged, each: Field, log: seq<Emission>, n: nat, m: Mark)
    requires HoldsBack(s, each, log, n) && Payload(env, m).Ok?
    ensures HoldsBack(StageOne(env, max, s, m, n), MarkOne(env, max, each, m).0, log, n + 1)
  {
    hide Settle, AdjustTotal, Raised, Payload;
  }

  lemma {:induction false} StagedLikeMarks(env: Env, max: Option<real>, f: Field, marks: seq<Mark>)
    ensures var s, each := StageMarks(env, max, f, marks), MarkEach(env, max, f, marks);
            && (s.failed.Some? <==> each.None?)
            && (each.Some? ==> HoldsBack(s, each.value, f.log, |marks|))
  {
    hide MarkOne, Payload, Place, Point;
    if marks != [] {
      var front, last := marks[..|marks| - 1], marks[|marks| - 1];
      StagedLikeMarks(env, max, f, front);
      var s, each := StageMarks(env, max, f, front), MarkEach(env, max, f, front);
      if each.Some? && Payload(env, last).Ok? {
        OneMoreHeldBack(env, max, s, each.value, f.log, |front|, last);
      }
    }
  }

  /** Which mark a batch fails at. */
  lemma {:induction false} StageFailsAtFirst(env: Env, max: Option<real>, f: Field, marks: seq<Mark>)
    ensures match StageMarks(env, max, f, marks).failed
            case None => forall i :: 0 <= i < |marks| ==> Payload(env, marks[i]).Ok?
            case Some(k) =>
              k < |marks| && Payload(env, marks[k]).Err? && forall i :: 0 <= i < k ==> Payload(env, marks[i]).Ok?
  {
    hide Payload, Place, Point;
    if marks != [] {
      var front, last := marks[..|marks| - 1], marks[|marks| - 1];
      StageFailsAtFirst(env, max, f, front);
      var s := StageMarks(env, max, f, front);
      assert StageMarks(env, max, f, marks) == StageOne(env, max, s, last, |marks| - 1);
      if s.failed.None? {
        forall i | 0 <= i < |front| ensures Payload(env, marks[i]).Ok? {
          assert marks[i] == front[i];
        }
      } else {
        forall i | 0 <= i < s.failed.value ensures Payload(env, marks[i]).Ok? {
          assert marks[i] == front[i];
        }
      }
    }
  }

  lemma {:induction false} AnnouncedAfter(f: Field, changes: seq<Change>)
    ensures var f' := AnnounceAll(f, changes);
            && |f'.log| == |f.log| + |changes| && f'.log[..|f.log|] == f.log
            && forall i :: 0 <= i < |changes| ==> f'.log[|f.log| + i] == Emission(changes[i], f.totals)
  {
    if changes != [] {
      AnnouncedAfter(f, changes[..|changes| - 1]);
    }
  }

  /**
   A batch is all or nothing. If some mark is bad it fails at the first bad one, and entries, totals and event
   stream are as before. Otherwise entries, totals and change events are those of the marks made one by one, and
   every listener sees the totals as they stand after the whole batch.
   */
  lemma BatchIsAtomic(env: Env, max: Option<real>, f: Field, marks: seq<Mark>)
    ensures var (f', r) := BatchMark(env, max, f, marks);
            && (r.Ok? <==> forall i :: 0 <= i < |marks| ==> Payload(env, marks[i]).Ok?)
            && (r.Err? ==>
                  && r.error < |marks| && Payload(env, marks[r.error]).Err?
                  && (forall i :: 0 <= i < r.error ==> Payload(env, marks[i]).Ok?)
                  && f'.entries == f.entries && f'.totals == f.totals && f'.log == f.log)
    ensures var (f', r) := BatchMark(env, max, f, marks);
            r.Ok? ==>
              && MarkEach(env, max, f, marks).Some?
              && var each := MarkEach(env, max, f, marks).value;
                 && f'.entries == each.entries && f'.totals == each.totals && f'.ticks == each.ticks
                 && |f'.log| == |each.log| == |f.log| + |marks|
                 && f'.log[..|f.log|] == f.log
                 && forall i :: |f.log| <= i < |f'.log| ==> f'.log[i] == Emission(each.log[i].change, f'.totals)
  {
    hide StageMarks, MarkEach, AnnounceAll, Payload;
    StageFailsAtFirst(env, max, f, marks);
    StagedLikeMarks(env, max, f, marks);
    var s := StageMarks(env, max, f, marks);
    AnnouncedAfter(s.field, s.changes);
    var (f', r) := BatchMark(env, max, f, marks);
    if r.Ok? {
      var each := MarkEach(env, max, f, marks).value;
      forall i | |f.log| <= i < |f'.log| ensures f'.log[i] == Emission(each.log[i].change, f'.totals) {
        var k := i - |f.log|;
        assert f'.log[|f.log| + k] == Emission(s.changes[k], f'.totals);
      }
    }
  }

  // ---------------------------------------------------------------------------------------------
  // Evaporation
  // ---------------------------------------------------------------------------------------------

  /**
   Every entry ends at its decayed level or, when its loss is negligible, where it was; either way it counts as
   brought up to date. An entry decayed to nothing is gone.
   */
  lemma {:induction false} EvaporatedLevels(env: Env, max: Option<real>, h: real, f: Field, keys: seq<string>, t: int,
    key: string)
    requires Kempt(max, f.entries) && h > 0.0 && (forall k :: k in keys ==> f.entries.Has(k)) && Distinct(keys)
    requires key in keys && f.entries.Has(key)
    ensures var e, f' := f.entries.rows[key], EvaporateKeys(env, max, h, f, keys, t);
            f'.entries.Get(key) ==
              if Negligible(env, max, h, e, t) then Some(e.(updatedAt := t))
              else if Decayed(env, max, h, e, t) == 0.0 then None
              else Some(e.(intensity := Decayed(env, max, h, e, t), updatedAt := t))
  {
    hide Decayed, Negligible, AdjustTotal;
    var front, last := keys[..|keys| - 1], keys[|keys| - 1];
    assert keys == front + [last] && last !in front;
    var f' := EvaporateKeys(env, max, h, f, front, t);
    if key == last {
      assert f.entries.Has(last) && f'.entries.Get(last) == f.entries.Get(last);
      DecayedLevel(env, max, h, f.entries.rows[key], t);
    } else {
      EvaporatedLevels(env, max, h, f, front, t, key);
    }
  }

  /** Nobody hears of an evaporation in which every loss is negligible, and totals do not move. */
  ghost predicate AllNegligible(env: Env, max: Option<real>, h: real, m: JsMap<Entry>, keys: seq<string>, t: int)
    requires h > 0.0
  {
    forall k :: k in keys && m.Has(k) ==> Negligible(env, max, h, m.rows[k], t)
  }

  /** `log'` is `log` with more emissions after it, the last of which shows `totals`. */
  ghost predicate Extends(log: seq<Emission>, before: JsMap<Total>, log': seq<Emission>, totals: JsMap<Total>) {
    && log <= log'
    && totals == (if |log'| == |log| then before else log'[|log'| - 1].totals)
  }

  lemma KeyQuietIff(env: Env, max: Option<real>, h: real, f: Field, key: string, t: int)
    requires h > 0.0 && f.entries.Has(key)
    ensures var f' := EvaporateKey(env, max, h, f, key, t);
            && Extends(f.log, f.totals, f'.log, f'.totals)
            && (|f'.log| == |f.log| <==> Negligible(env, max, h, f.entries.rows[key], t))
            && f'.ticks == f.ticks
  {
    hide Decayed, Negligible, AdjustTotal, Settle;
  }

  lemma ExtendsTwice(a: seq<Emission>, ta: JsMap<Total>, b: seq<Emission>, tb: JsMap<Total>, c: seq<Emission>,
    tc: JsMap<Total>)
    requires Extends(a, ta, b, tb) && Extends(b, tb, c, tc)
    ensures Extends(a, ta, c, tc) && |a| <= |b| <= |c|
  {
  }

  lemma {:induction false} QuietIff(env: Env, max: Option<real>, h: real, f: Field, keys: seq<string>, t: int)
    requires h > 0.0 && (forall k :: k in keys ==> f.entries.Has(k)) && Distinct(keys)
    ensures var f' := EvaporateKeys(env, max, h, f, keys, t);
            && Extends(f.log, f.totals, f'.log, f'.totals)
            && (|f'.log| == |f.log| <==> AllNegligible(env, max, h, f.entries, keys, t))
            && f'.ticks == f.ticks
  {
    hide Negligible, EvaporateKey, Extends;
    if keys != [] {
      var front, last := keys[..|keys| - 1], keys[|keys| - 1];
      assert keys == front + [last] && last !in front;
      QuietIff(env, max, h, f, front, t);
      var f' := EvaporateKeys(env, max, h, f, front, t);
      assert f.entries.Has(last) && f'.entries.Get(last) == f.entries.Get(last);
      KeyQuietIff(env, max, h, f', last, t);
      var f'' := EvaporateKey(env, max, h, f', last, t);
      ExtendsTwice(f.log, f.totals, f'.log, f'.totals, f''.log, f''.totals);
      assert AllNegligible(env, max, h, f.entries, keys, t) <==>
             AllNegligible(env, max, h, f.entries, front, t) && Negligible(env, max, h, f.entries.rows[last], t);
    } else {
      assert Extends(f.log, f.totals, f.log, f.totals) by { ExtendsSelf(f); }
    }
  }

  lemma ExtendsSelf(f: Field)
    ensures Extends(f.log, f.totals, f.log, f.totals)
  {
  }

  /** The entries with their intensities, all brought up to date at `t`. */
  function Touched(m: JsMap<Entry>, t: int): JsMap<Entry> {
    JsMap(m.keys, map k | k in m.rows :: m.rows[k].(updatedAt := t))
  }

  /** By each reading every entry has lost a negligible amount since the reading before. */
  ghost predicate Gradual(env: Env, max: Option<real>, h: real, m: JsMap<Entry>, times: seq<int>)
    requires h > 0.0
    decreases |times|
  {
    times == [] || (
      && (forall k :: k in m.rows ==> Negligible(env, max, h, m.rows[k], times[0]))
      && Gradual(env, max, h, Touched(m, times[0]), times[1..]))
  }

  function EvaporateAt(env: Env, max: Option<real>, h: real, f: Field, times: seq<int>): Field
    requires h > 0.0 && f.entries.Valid()
    decreases |times|
  {
    if times == [] then f
    else
      EvaporateStaysValid(env, max, h, f, f.entries.keys, times[0]);
      EvaporateAt(env, max, h, EvaporateKeys(env, max, h, f, f.entries.keys, times[0]), times[1..])
  }

  lemma {:induction false} EvaporateStaysValid(env: Env, max: Option<real>, h: real, f: Field, keys: seq<string>,
    t: int)
    requires f.entries.Valid() && h > 0.0 && (forall k :: k in keys ==> f.entries.Has(k)) && Distinct(keys)
    ensures EvaporateKeys(env, max, h, f, keys, t).entries.Valid()
  {
    hide AdjustTotal, Negligible;
    if keys != [] {
      EvaporateStaysValid(env, max, h, f, keys[..|keys| - 1], t);
      var f' := EvaporateKeys(env, max, h, f, keys[..|keys| - 1], t);
      assert f.entries.Has(keys[|keys| - 1]) && f'.entries.Get(keys[|keys| - 1]) == f.entries.Get(keys[|keys| - 1]);
    }
  }

  /** An evaporation with nothing but negligible losses only moves the times of the entries. */
  lemma {:induction false} TouchedOnly(env: Env, max: Option<real>, h: real, f: Field, keys: seq<string>, t: int)
    requires f.entries.Valid() && h > 0.0 && (forall k :: k in keys ==> f.entries.Has(k)) && Distinct(keys)
    requires AllNegligible(env, max, h, f.entries, keys, t)
    ensures var f' := EvaporateKeys(env, max, h, f, keys, t);
            && f'.entries.keys == f.entries.keys && f'.entries.rows.Keys == f.entries.rows.Keys
            && forall k :: k in f.entries.rows ==>
                 f'.entries.rows[k] == if k in keys then f.entries.rows[k].(updatedAt := t) else f.entries.rows[k]
  {
    hide Negligible, Decayed;
    if keys != [] {
      var front, last := keys[..|keys| - 1], keys[|keys| - 1];
      assert keys == front + [last] && last !in front;
      TouchedOnly(env, max, h, f, front, t);
      assert f.entries.Has(last);
    }
  }

  lemma {:induction false} EvaporationsExtend(env: Env, max: Option<real>, h: real, f: Field, times: seq<int>)
    requires h > 0.0 && f.entries.Valid()
    ensures f.log <= EvaporateAt(env, max, h, f, times).log
    decreases |times|
  {
    hide EvaporateKeys, AllNegligible;
    if times != [] {
      EvaporateStaysValid(env, max, h, f, f.entries.keys, times[0]);
      QuietIff(env, max, h, f, f.entries.keys, times[0]);
      EvaporationsExtend(env, max, h, EvaporateKeys(env, max, h, f, f.entries.keys, times[0]), times[1..]);
    }
  }

  /**
   Evaporating often enough stops evaporation, and only that does: nobody hears of a series of evaporations if and
   only if at each reading every loss since the reading before is negligible. Then no intensity and no total has
   changed at the end, however much time has passed in all.
   */
  lemma {:induction false} FrequentEvaporationStalls(env: Env, max: Option<real>, h: real, f: Field, times: seq<int>)
    requires h > 0.0 && f.entries.Valid()
    ensures var f' := EvaporateAt(env, max, h, f, times);
            && (f'.log == f.log <==> Gradual(env, max, h, f.entries, times))
            && (f'.log == f.log && times != [] ==>
                  f'.totals == f.totals && f'.entries == Touched(f.entries, times[|times| - 1]))
    decreases |times|
  {
    hide Negligible, EvaporateKeys, Touched;
    if times != [] {
      var t := times[0];
      var f' := EvaporateKeys(env, max, h, f, f.entries.keys, t);
      EvaporateStaysValid(env, max, h, f, f.entries.keys, t);
      QuietIff(env, max, h, f, f.entries.keys, t);
      EvaporationsExtend(env, max, h, f', times[1..]);
      FrequentEvaporationStalls(env, max, h, f', times[1..]);
      assert AllNegligible(env, max, h, f.entries, f.entries.keys, t) <==>
             forall k :: k in f.entries.rows ==> Negligible(env, max, h, f.entries.rows[k], t);
      if AllNegligible(env, max, h, f.entries, f.entries.keys, t) {
        AllTouched(env, max, h, f, t);
        TouchedTwice(f.entries, t, times[|times| - 1]);
      }
    }
  }

  lemma {:induction false} LevelsNeverRise(
    env: Env, max: Option<real>, h: real, f: Field, times: seq<int>, key: string)
    requires Kempt(max, f.entries) && h > 0.0 && Decays(env)
    ensures LevelOf(EvaporateAt(env, max, h, f, times).entries, key) <= LevelOf(f.entries, key)
    decreases |times|
  {
    hide Kempt, Decays, EvaporateKeys;
    KemptIsValid(max, f.entries);
    if times != [] {
      var f' := EvaporateKeys(env, max, h, f, f.entries.keys, times[0]);
      EvaporateStaysValid(env, max, h, f, f.entries.keys, times[0]);
      EvaporateKeepsKempt(env, max, h, f, f.entries.keys, times[0]);
      LevelFalls(env, max, h, f, times[0], key);
      LevelsNeverRise(env, max, h, f', times[1..], key);
    }
  }

  /** One evaporation never raises a level, and lowers one whose loss is not negligible. */
  lemma LevelFalls(env: Env, max: Option<real>, h: real, f: Field, t: int, key: string)
    requires Kempt(max, f.entries) && f.entries.Valid() && h > 0.0 && Decays(env)
    ensures var level, level' := LevelOf(f.entries, key),
              LevelOf(EvaporateKeys(env, max, h, f, f.entries.keys, t).entries, key);
            && level' <= level
            && (f.entries.Has(key) ==> (level' == level <==> Negligible(env, max, h, f.entries.rows[key], t)))
  {
    hide Kempt, Decays, EvaporateKeys, Decayed;
    if f.entries.Has(key) {
      KemptKey(max, f.entries, key);
      DecayedLevel(env, max, h, f.entries.rows[key], t);
      EvaporatedLevels(env, max, h, f, f.entries.keys, t, key);
    }
  }

  ghost predicate SameLevels(m: JsMap<Entry>, m': JsMap<Entry>) {
    forall k :: LevelOf(m', k) == LevelOf(m, k)
  }

  /** Under a decay that only takes away, it is also the only way for every intensity to be as it was at the end. */
  lemma {:induction false} LevelsStandStillIff(env: Env, max: Option<real>, h: real, f: Field, times: seq<int>)
    requires Kempt(max, f.entries) && f.entries.Valid() && h > 0.0 && Decays(env)
    ensures SameLevels(f.entries, EvaporateAt(env, max, h, f, times).entries) <==>
              Gradual(env, max, h, f.entries, times)
    decreases |times|
  {
    hide Kempt, Decays, EvaporateKeys, Negligible, Touched;
    if times != [] {
      var t := times[0];
      var f' := EvaporateKeys(env, max, h, f, f.entries.keys, t);
      var end := EvaporateAt(env, max, h, f, times);
      EvaporateStaysValid(env, max, h, f, f.entries.keys, t);
      EvaporateKeepsKempt(env, max, h, f, f.entries.keys, t);
      LevelsStandStillIff(env, max, h, f', times[1..]);
      if k :| k in f.entries.rows && !Negligible(env, max, h, f.entries.rows[k], t) {
        LevelFalls(env, max, h, f, t, k);
        LevelsNeverRise(env, max, h, f', times[1..], k);
        assert LevelOf(end.entries, k) < LevelOf(f.entries, k);
      } else {
        AllTouched(env, max, h, f, t);
        TouchedLevels(f.entries, t);
      }
    }
  }

  lemma TouchedLevels(m: JsMap<Entry>, t: int)
    ensures SameLevels(m, Touched(m, t))
  {
  }

  lemma AllTouched(env: Env, max: Option<real>, h: real, f: Field, t: int)
    requires f.entries.Valid() && h > 0.0 && AllNegligible(env, max, h, f.entries, f.entries.keys, t)
    ensures EvaporateKeys(env, max, h, f, f.entries.keys, t).entries == Touched(f.entries, t)
  {
    hide Negligible, EvaporateKeys;
    TouchedOnly(env, max, h, f, f.entries.keys, t);
    var m := EvaporateKeys(env, max, h, f, f.entries.keys, t).entries;
    assert m.rows == Touched(f.entries, t).rows;
  }

  lemma TouchedTwice(m: JsMap<Entry>, t: int, u: int)
    ensures Touched(Touched(m, t), u) == Touched(m, u)
  {
    assert Touched(Touched(m, t), u).rows == Touched(m, u).rows;
  }

  /** A field with one entry of intensity one, marked at time zero. */
  function OneEntry(): Field {
    Field(JsMap(["n::a"], map["n::a" := Entry("n", "a", 1.0, 0)]), JsMap(["n"], map["n" := Total(1.0, 0)]), 0, [])
  }

  /** The milliseconds after `start`. */
  function Milliseconds(start: int, n: nat): seq<int>
    decreases n
  {
    if n == 0 then [] else [start + 1] + Milliseconds(start + 1, n - 1)
  }

  lemma {:induction false} MillisecondsAreGradual(env: Env, start: int, n: nat)
    requires 0.999999 <= env.halve(0.000001) <= 1.0
    ensures Gradual(env, None, 1000000.0, Touched(OneEntry().entries, start), Milliseconds(start, n))
    decreases n
  {
    if n > 0 {
      var m, times := Touched(OneEntry().entries, start), Milliseconds(start, n);
      MillisecondIsNegligible(env, start);
      MillisecondsAreGradual(env, start + 1, n - 1);
      TouchedTwice(OneEntry().entries, start, start + 1);
      assert times[1..] == Milliseconds(start + 1, n - 1);
    }
  }

  lemma MillisecondIsNegligible(env: Env, start: int)
    requires 0.999999 <= env.halve(0.000001) <= 1.0
    ensures Negligible(env, None, 1000000.0, Entry("n", "a", 1.0, start), start + 1)
  {
    var e := Entry("n", "a", 1.0, start);
    assert (start + 1 - e.updatedAt) as real / 1000000.0 == 0.000001;
    assert Fade(e.intensity, Factor(env, 1000000.0, e, start + 1)) == env.halve(0.000001);
  }

  /**
   With a half-life of 1000 seconds, evaporating every millisecond keeps an intensity of one for ever, while a
   single evaporation after those 1000 seconds halves it. The hypotheses on the decay hold of a power of one half.
   */
  lemma EveryMillisecondStalls(env: Env, n: nat)
    requires 0.999999 <= env.halve(0.000001) <= 1.0 && env.halve(1.0) == 0.5
    ensures OneEntry().entries.Valid()
    ensures LevelOf(EvaporateAt(env, None, 1000000.0, OneEntry(), Milliseconds(0, n)).entries, "n::a") == 1.0
    ensures LevelOf(EvaporateAt(env, None, 1000000.0, OneEntry(), [1000000]).entries, "n::a") == 0.5
  {
    hide Gradual, EvaporateKeys;
    var f := OneEntry();
    assert f.entries.rows == Touched(f.entries, 0).rows;
    MillisecondsAreGradual(env, 0, n);
    FrequentEvaporationStalls(env, None, 1000000.0, f, Milliseconds(0, n));
    HalvedAtOnce(env);
  }

  lemma HalvedAtOnce(env: Env)
    requires env.halve(1.0) == 0.5 && OneEntry().entries.Valid()
    ensures LevelOf(EvaporateAt(env, None, 1000000.0, OneEntry(), [1000000]).entries, "n::a") == 0.5
  {
    var f, e := OneEntry(), Entry("n", "a", 1.0, 0);
    assert ["n::a"][..0] == [] && [1000000][1..] == [];
    assert EvaporateKeys(env, None, 1000000.0, f, [], 1000000) == f;
    assert 1000000 as real / 1000000.0 == 1.0;
    assert Decayed(env, None, 1000000.0, e, 1000000) == 0.5;
    assert EvaporateKeys(env, None, 1000000.0, f, ["n::a"], 1000000) ==
           EvaporateKey(env, None, 1000000.0, f, "n::a", 1000000);
  }

  // ---------------------------------------------------------------------------------------------
  // The scale
  // ---------------------------------------------------------------------------------------------

  /** An unbounded field is shown up to its highest total; with nothing above the minimum, up to one more than it. */
  lemma {:induction false} ObservedIsHighest(levels: seq<real>, min: real)
    ensures Observed(levels, min) >= min && forall i :: 0 <= i < |levels| ==> levels[i] <= Observed(levels, min)
    ensures Observed(levels, min) == min || Observed(levels, min) in levels
  {
    if levels != [] {
      ObservedIsHighest(levels[..|levels| - 1], min);
    }
  }

  lemma CeilingIsHighest(limits: Limits, levels: seq<real>)
    requires LimitsValid(limits) && limits.max.None?
    ensures var c := Ceiling(limits, levels);
            && (forall i :: 0 <= i < |levels| ==> levels[i] <= c)
            && c > limits.min
            && (c in levels || (c == limits.min + 1.0 && forall i :: 0 <= i < |levels| ==> levels[i] <= limits.min))
  {
    ObservedIsHighest(levels, limits.min);
  }

  /** Shown levels lie in [0, 1], keep the order of the intensities, and reach 1 exactly from the ceiling up. */
  lemma NormaliseScales(limits: Limits, levels: seq<real>, a: real, b: real)
    requires LimitsValid(limits) && a <= b
    ensures var c := Ceiling(limits, levels);
            && 0.0 <= Normalise(limits, a, c) <= Normalise(limits, b, c) <= 1.0
            && (Normalise(limits, a, c) == 1.0 <==> a >= c)
            && (Normalise(limits, a, c) == 0.0 <==> a <= limits.min)
  {
    var c := Ceiling(limits, levels);
    if limits.max.None? {
      CeilingIsHighest(limits, levels);
    }
    var span := c - limits.min;
    if limits.min < a < c {
      FractionOf(a - limits.min, span);
    }
    if limits.min < b < c {
      FractionOf(b - limits.min, span);
      if limits.min < a {
        QuotientGrows(a - limits.min, b - limits.min, span);
      }
    }
  }

  /** The heatmap sums the entries again and finds the totals the field has kept. */
  lemma HeatmapShowsTotals(max: Option<real>, f: Field, cells: JsMap<Total>, contributions: JsMap<seq<Entry>>,
    nodeId: string)
    requires Kempt(max, f.entries) && Agrees(f.entries, f.totals)
    requires Stigmergy.Heatmap(f.entries, f.entries.keys, cells, contributions)
    ensures cells.Has(nodeId) <==> f.totals.Has(nodeId)
    ensures TotalOf(cells, nodeId) == TotalOf(f.totals, nodeId)
  {
    hide Kempt;
    SumTellsMarked(max, f.entries, nodeId);
    assert TotalOf(f.totals, nodeId) == NodeSum(f.entries, nodeId);
    assert f.totals.Has(nodeId) <==> NodeSum(f.entries, nodeId) > 0.0;
    assert cells.Has(nodeId) <==> Stigmergy.SharesOf(f.entries, f.entries.keys, nodeId) != [];
    if cells.Has(nodeId) {
      assert Stigmergy.CellOf(f.entries, f.entries.keys, nodeId, cells.rows[nodeId], contributions.rows[nodeId]);
    }
  }
}
