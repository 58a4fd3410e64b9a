/**
 Properties of whole runs of the blackboard: lazy expiry is invisible, batches are atomic, the history is a
 replayable suffix of all events, and watchers miss nothing.
 */
module BlackboardProofs {
  import opened Outcomes
  import opened JsMaps
  import opened BlackboardSpec
  import Blackboard

  // ---------------------------------------------------------------------------------------------
  // Runs
  // ---------------------------------------------------------------------------------------------

  datatype Op =
    | OpSet(w: Write)
    | OpBatch(ws: seq<Write>)
    | OpGet(key: string)
    | OpDelete(key: string)
    | OpQuery(keys: Option<set<string>>, tags: Option<set<string>>)
    | OpEvict
    | OpSince(from: int, limit: Option<int>)
    | OpWatch(watchFrom: int)
    | OpClear

  /** What a caller is told about entries. */
  datatype Answer =
    | Silent
    | One(entry: Option<Entry>)
    | Many(entries: seq<Entry>)
    | Batched(result: Result<seq<Entry>, nat>)
    | Deleted(deleted: bool)

  function Step(s: Store, t: int, op: Op): (Store, Answer) {
    match op
    case OpSet(w) => var (s', r) := SetEntry(s, t, w); (s', One(r))
    case OpBatch(ws) => var (s', r) := BatchSet(s, t, ws); (s', Batched(r))
    case OpGet(key) => var (s', r) := GetEntry(s, t, key); (s', One(r))
    case OpDelete(key) => var (s', r) := DeleteEntry(s, t, key); (s', Deleted(r))
    case OpQuery(keys, tags) => var (s', r) := Query(s, t, keys, tags); (s', Many(r))
    case OpEvict => (Evict(s, t), Silent)
    case OpSince(from, limit) => (EventsSince(s, t, from, limit).0, Silent)
    case OpWatch(from) => (Watch(s, t, from), Silent)
    case OpClear => (ClearHistory(s), Silent)
  }

  /** An operation and the clock reading it takes. */
  datatype Timed = Timed(at: int, op: Op)

  function Run(s: Store, ops: seq<Timed>): Store
    decreases |ops|
  {
    if ops == [] then s else Run(Step(s, ops[0].at, ops[0].op).0, ops[1..])
  }

  function Answers(s: Store, ops: seq<Timed>): seq<Answer>
    decreases |ops|
  {
    if ops == [] then []
    else
      var (s', answer) := Step(s, ops[0].at, ops[0].op);
      [answer] + Answers(s', ops[1..])
  }

  /** Clock readings never go back. */
  predicate Nondecreasing(from: int, ops: seq<Timed>)
    decreases |ops|
  {
    ops == [] || (from <= ops[0].at && Nondecreasing(ops[0].at, ops[1..]))
  }

  // ---------------------------------------------------------------------------------------------
  // Lazy eviction is eager expiry
  // ---------------------------------------------------------------------------------------------

  function Dead(m: JsMap<Entry>, t: int): set<string> {
    set k | k in m.rows && Expired(m.rows[k], t)
  }

  function WithoutAll(keys: seq<string>, dead: set<string>): seq<string> {
    if keys == [] then []
    else if keys[0] in dead then WithoutAll(keys[1..], dead)
    else [keys[0]] + WithoutAll(keys[1..], dead)
  }

  function Remove(m: JsMap<Entry>, dead: set<string>): JsMap<Entry> {
    JsMap(WithoutAll(m.keys, dead), m.rows - dead)
  }

  /** A store with its own clock that drops an entry at the very instant its time is up. It has no history. */
  datatype Ideal = Ideal(entries: JsMap<Entry>, version: nat, now: int)

  /** One millisecond passes. */
  function TickOnce(i: Ideal): Ideal {
    Ideal(Remove(i.entries, Dead(i.entries, i.now + 1)), i.version + |Dead(i.entries, i.now + 1)|, i.now + 1)
  }

  function WaitUntil(i: Ideal, t: int): Ideal
    requires i.now <= t
    decreases t - i.now
  {
    if i.now == t then i else WaitUntil(TickOnce(i), t)
  }

  function IdealPut(i: Ideal, w: Write): (Ideal, Option<Entry>) {
    if w.value.Unclonable? then (i.(version := i.version + 1), None)
    else
      var e := NewEntry(i.entries, i.version + 1, i.now, w);
      (i.(entries := i.entries.Put(w.key, e), version := i.version + 1), Some(e))
  }

  /** The operations of the ideal store never look at lifetimes. */
  function IdealStep(i: Ideal, op: Op): (Ideal, Answer) {
    match op
    case OpSet(w) => var (i', r) := IdealPut(i, w); (i', One(r))
    case OpBatch(ws) =>
      var b := Stage(i.entries, i.version, i.now, ws);
      StagedEventsCarryEntries(i.entries, i.version, i.now, ws);
      if b.failed.Some? then (i, Batched(Err(b.failed.value)))
      else (i.(entries := b.entries, version := b.version), Batched(Ok(Written(b.events))))
    case OpGet(key) => (i, One(i.entries.Get(key)))
    case OpDelete(key) =>
      if i.entries.Has(key) then (i.(entries := i.entries.Delete(key), version := i.version + 1), Deleted(true))
      else (i, Deleted(false))
    case OpQuery(keys, tags) => (i, Many(SortByUpdate(Select(i.entries, i.entries.keys, keys, tags))))
    case _ => (i, Silent)
  }

  function IdealAnswers(i: Ideal, ops: seq<Timed>): seq<Answer>
    requires Nondecreasing(i.now, ops)
    decreases |ops|
  {
    if ops == [] then []
    else
      WaitKeepsTime(i, ops[0].at);
      var (i', answer) := IdealStep(WaitUntil(i, ops[0].at), ops[0].op);
      [answer] + IdealAnswers(i', ops[1..])
  }

  lemma {:induction false} WaitKeepsTime(i: Ideal, t: int)
    requires i.now <= t
    ensures WaitUntil(i, t).now == t
    decreases t - i.now
  {
    if i.now < t {
      WaitKeepsTime(TickOnce(i), t);
    }
  }

  /** The ideal store holds what the lazy store would hold after evicting now. */
  ghost predicate Agree(s: Store, i: Ideal) {
    && s.entries.Valid()
    && i.entries == Remove(s.entries, Dead(s.entries, i.now))
    && i.version == s.version + |Dead(s.entries, i.now)|
  }

  lemma {:induction false} WithoutAllTwice(keys: seq<string>, a: set<string>, b: set<string>)
    ensures WithoutAll(WithoutAll(keys, a), b) == WithoutAll(keys, a + b)
  {
    if keys != [] {
      WithoutAllTwice(keys[1..], a, b);
      if keys[0] !in a {
        var rest := WithoutAll(keys[1..], a);
        assert ([keys[0]] + rest)[1..] == rest;
      }
    }
  }

  lemma RemoveTwice(m: JsMap<Entry>, a: set<string>, b: set<string>)
    ensures Remove(Remove(m, a), b) == Remove(m, a + b)
  {
    WithoutAllTwice(m.keys, a, b);
    assert m.rows - a - b == m.rows - (a + b);
  }

  lemma {:induction false} WithoutAllNone(keys: seq<string>, dead: set<string>)
    requires forall k :: k in keys ==> k !in dead
    ensures WithoutAll(keys, dead) == keys
  {
    if keys != [] {
      WithoutAllNone(keys[1..], dead);
    }
  }

  lemma {:induction false} WithoutAllOne(keys: seq<string>, k: string)
    ensures WithoutAll(keys, {k}) == Without(keys, k)
  {
    if keys != [] {
      WithoutAllOne(keys[1..], k);
    }
  }

  lemma DeleteIsRemove(m: JsMap<Entry>, k: string)
    ensures m.Delete(k) == Remove(m, {k})
  {
    WithoutAllOne(m.keys, k);
  }

  lemma RemoveNothing(m: JsMap<Entry>)
    ensures Remove(m, {}) == m
  {
    WithoutAllNone(m.keys, {});
    assert m.rows - {} == m.rows;
  }

  function DeadAmong(m: JsMap<Entry>, t: int, keys: seq<string>): set<string> {
    set k | k in keys && k in m.rows && Expired(m.rows[k], t)
  }

  /** Evicting the keys seen so far removes their dead, one version each. */
  lemma {:induction false} EvictRemoves(s: Store, t: int, keys: seq<string>)
    requires s.entries.Valid() && forall i, j :: 0 <= i < j < |keys| ==> keys[i] != keys[j]
    ensures var s' := EvictKeys(s, t, keys);
            && s'.entries == Remove(s.entries, DeadAmong(s.entries, t, keys))
            && s'.version == s.version + |DeadAmong(s.entries, t, keys)|
  {
    hide LastOf, DeliverAll, Remove;
    if keys == [] {
      assert DeadAmong(s.entries, t, keys) == {};
      RemoveNothing(s.entries);
    } else {
      var front, k := keys[..|keys| - 1], keys[|keys| - 1];
      assert k !in front;
      EvictRemoves(s, t, front);
      var mid, dead := EvictKeys(s, t, front), DeadAmong(s.entries, t, front);
      Blackboard.EvictTouchesItsKeys(s, t, front);
      assert mid.entries.Get(k) == s.entries.Get(k);
      if s.entries.Has(k) && Expired(s.entries.rows[k], t) {
        assert DeadAmong(s.entries, t, keys) == dead + {k};
        DeleteIsRemove(mid.entries, k);
        RemoveTwice(s.entries, dead, {k});
      } else {
        assert DeadAmong(s.entries, t, keys) == dead;
      }
    }
  }

  lemma EvictIsRemoval(s: Store, t: int)
    requires s.entries.Valid()
    ensures var s' := Evict(s, t);
            && s'.entries == Remove(s.entries, Dead(s.entries, t)) && s'.version == s.version + |Dead(s.entries, t)|
            && s'.entries.Valid() && Dead(s'.entries, t) == {}
  {
    hide EvictKeys, Remove;
    EvictRemoves(s, t, s.entries.keys);
    assert DeadAmong(s.entries, t, s.entries.keys) == Dead(s.entries, t);
    Blackboard.EvictTouchesItsKeys(s, t, s.entries.keys);
    forall k ensures k !in Dead(Evict(s, t).entries, t) {
      assert Evict(s, t).entries.Get(k) ==
        if k in s.entries.keys && s.entries.Has(k) && Expired(s.entries.rows[k], t) then None else s.entries.Get(k);
    }
  }

  lemma DeadLater(m: JsMap<Entry>, t: int)
    ensures Dead(m, t) <= Dead(m, t + 1)
    ensures Dead(Remove(m, Dead(m, t)), t + 1) == Dead(m, t + 1) - Dead(m, t)
  {
    hide WithoutAll;
  }

  lemma TickAgrees(s: Store, i: Ideal)
    requires Agree(s, i)
    ensures Agree(s, TickOnce(i))
  {
    hide Remove, Dead, JsMap.Valid;
    var before, after := Dead(s.entries, i.now), Dead(s.entries, i.now + 1);
    DeadLater(s.entries, i.now);
    assert before + (after - before) == after;
    RemoveTwice(s.entries, before, after - before);
  }

  lemma {:induction false} WaitAgrees(s: Store, i: Ideal, t: int)
    requires Agree(s, i) && i.now <= t
    ensures Agree(s, WaitUntil(i, t))
    decreases t - i.now
  {
    hide Agree;
    if i.now < t {
      TickAgrees(s, i);
      WaitAgrees(s, TickOnce(i), t);
    }
  }

  /** Nothing in the store is expired at `t`. */
  predicate AliveAt(m: JsMap<Entry>, t: int) {
    forall k :: k in m.rows ==> !Expired(m.rows[k], t)
  }

  lemma AliveAgrees(s: Store, i: Ideal)
    requires s.entries.Valid() && s.entries == i.entries && s.version == i.version && AliveAt(s.entries, i.now)
    ensures Agree(s, i)
  {
    assert Dead(s.entries, i.now) == {};
    RemoveNothing(s.entries);
  }

  lemma {:induction false} StageStaysAlive(entries: JsMap<Entry>, version: nat, t: int, ws: seq<Write>)
    requires entries.Valid() && AliveAt(entries, t)
    ensures var b := Stage(entries, version, t, ws); b.entries.Valid() && AliveAt(b.entries, t)
  {
    if ws != [] {
      StageStaysAlive(entries, version, t, ws[..|ws| - 1]);
    }
  }

  lemma {:induction false} RecordAllKeepsEntries(s: Store, events: seq<Event>)
    ensures var s' := RecordAll(s, events); s'.entries == s.entries && s'.version == s.version && s'.limit == s.limit
  {
    if events != [] {
      RecordAllKeepsEntries(s, events[..|events| - 1]);
    }
  }

  /** Rid of what has expired, the store shows what the ideal one holds. */
  ghost predicate Mirrors(base: Store, i: Ideal) {
    base.entries.Valid() && base.entries == i.entries && base.version == i.version && AliveAt(base.entries, i.now)
  }

  lemma EvictedMirrors(s: Store, i: Ideal)
    requires Agree(s, i)
    ensures Mirrors(Evict(s, i.now), i)
  {
    hide Evict, Remove, Agree;
    assert s.entries.Valid() by { AgreeIsValid(s, i); }
    var base := Evict(s, i.now);
    EvictIsRemoval(s, i.now);
    EvictedEquals(s, i);
    forall k | k in base.entries.rows ensures !Expired(base.entries.rows[k], i.now) {
      assert k !in Dead(base.entries, i.now);
    }
  }

  lemma PutAgrees(base: Store, i: Ideal, w: Write)
    requires Mirrors(base, i)
    ensures PutEntry(base, i.now, w).1 == IdealPut(i, w).1 && Agree(PutEntry(base, i.now, w).0, IdealPut(i, w).0)
  {
    hide Commit, Agree;
    if w.value.Data? {
      LatePutIsAlive(base, i.now, w);
    }
    AliveAgrees(PutEntry(base, i.now, w).0, IdealPut(i, w).0);
  }

  lemma DropAgrees(base: Store, i: Ideal, key: string)
    requires Mirrors(base, i) && base.entries.Has(key)
    ensures var s' := Commit(base, Event(base.version + 1, Delete, key, i.now, None, Some(base.entries.rows[key])));
            Agree(s', i.(entries := i.entries.Delete(key), version := i.version + 1))
  {
    hide LastOf, DeliverAll, Agree;
    var s' := Commit(base, Event(base.version + 1, Delete, key, i.now, None, Some(base.entries.rows[key])));
    AliveAgrees(s', i.(entries := i.entries.Delete(key), version := i.version + 1));
  }

  lemma WatchersDoNotMatter(base: Store, s: Store, i: Ideal)
    requires Mirrors(base, i) && s.entries == base.entries && s.version == base.version
    ensures Agree(s, i)
  {
    hide Agree;
    AliveAgrees(s, i);
  }

  /** An operation gives the same answer on both stores and leaves them in agreement. */
  lemma StepAgrees(s: Store, i: Ideal, op: Op)
    requires Agree(s, i)
    ensures Step(s, i.now, op).1 == IdealStep(i, op).1
    ensures Agree(Step(s, i.now, op).0, IdealStep(i, op).0) && IdealStep(i, op).0.now == i.now
  {
    hide Evict, Commit, PutEntry, IdealPut, SortByUpdate, Above, FirstOf, Agree, RecordAll, Stage;
    var base := Evict(s, i.now);
    EvictedMirrors(s, i);
    assert base.entries == i.entries && base.version == i.version;
    var s', i' := Step(s, i.now, op).0, IdealStep(i, op).0;
    match op
    case OpSet(w) =>
      PutAgrees(base, i, w);
      PutKeepsTime(i, w);
    case OpBatch(ws) =>
      BatchEquals(base, i, ws);
      AliveAgrees(s', i');
    case OpDelete(key) =>
      if base.entries.Has(key) {
        DropAgrees(base, i, key);
      } else {
        WatchersDoNotMatter(base, s', i);
      }
    case OpClear => ClearAgrees(s, i);
    case OpGet(_) => WatchersDoNotMatter(base, s', i);
    case OpQuery(_, _) => WatchersDoNotMatter(base, s', i);
    case OpEvict => WatchersDoNotMatter(base, s', i);
    case OpSince(_, _) => WatchersDoNotMatter(base, s', i);
    case OpWatch(_) => WatchersDoNotMatter(base, s', i);
  }

  lemma PutKeepsTime(i: Ideal, w: Write)
    ensures IdealPut(i, w).0.now == i.now
  {
  }

  lemma BatchEquals(base: Store, i: Ideal, ws: seq<Write>)
    requires base.entries.Valid() && AliveAt(base.entries, i.now) && base.entries == i.entries
      && base.version == i.version
    ensures var b, i' := Stage(base.entries, base.version, i.now, ws), IdealStep(i, OpBatch(ws)).0;
            var s' := if b.failed.Some? then base
              else RecordAll(base.(entries := b.entries, version := b.version), b.events);
            && s'.entries == i'.entries && s'.version == i'.version && i'.now == i.now
            && s'.entries.Valid() && AliveAt(s'.entries, i.now)
  {
    hide Stage, RecordAll;
    var b := Stage(base.entries, base.version, i.now, ws);
    StageStaysAlive(base.entries, base.version, i.now, ws);
    RecordAllKeepsEntries(base.(entries := b.entries, version := b.version), b.events);
  }

  lemma AgreeIsValid(s: Store, i: Ideal)
    requires Agree(s, i)
    ensures s.entries.Valid()
  {
  }

  lemma EvictedEquals(s: Store, i: Ideal)
    requires Agree(s, i)
    ensures Evict(s, i.now).entries == i.entries && Evict(s, i.now).version == i.version
  {
    EvictIsRemoval(s, i.now);
  }

  lemma ClearAgrees(s: Store, i: Ideal)
    requires Agree(s, i)
    ensures Agree(ClearHistory(s), i)
  {
  }

  /**
   Under a clock that never goes back, the store answers every operation as the ideal store does that drops
   each entry the instant it expires: same values, tags, times, versions and order.
   */
  lemma {:induction false} LazyIsEager(s: Store, i: Ideal, ops: seq<Timed>)
    requires Agree(s, i) && Nondecreasing(i.now, ops)
    ensures Answers(s, ops) == IdealAnswers(i, ops)
    decreases |ops|
  {
    hide Step, IdealStep, Agree, WaitUntil;
    if ops != [] {
      var t := ops[0].at;
      WaitKeepsTime(i, t);
      WaitAgrees(s, i, t);
      StepAgrees(s, WaitUntil(i, t), ops[0].op);
      LazyIsEager(Step(s, t, ops[0].op).0, IdealStep(WaitUntil(i, t), ops[0].op).0, ops[1..]);
    }
  }

  /** The theorem applies from the start. */
  lemma NewStoreAgrees(limit: nat, now: int)
    ensures Agree(NewStore(limit), Ideal(Empty(), 0, now))
  {
    assert Dead(NewStore(limit).entries, now) == {};
  }

  /** The entry under `key` is alive at `t` and expired at `t'`. */
  predicate ExpiresBetween(m: JsMap<Entry>, key: string, t: int, t': int) {
    key in m.rows && !Expired(m.rows[key], t) && Expired(m.rows[key], t')
  }

  /**
   A `set` reads its clock again after evicting. Compared with one that takes the later reading for both, it gives the
   same answer if and only if no entry expires between the readings; its answer differs at most in the version if and
   only if the entry it replaces does not expire in between, or was created at the later reading.
   */
  lemma SecondReadingIsHarmlessIff(s: Store, t: int, t': int, w: Write)
    requires s.entries.Valid() && w.value.Data? && t <= t'
    ensures var twice, once := SetTwice(s, t, t', w).1.value, SetEntry(s, t', w).1.value;
            && (twice == once <==> forall k :: !ExpiresBetween(s.entries, k, t, t'))
            && (twice == once.(version := twice.version) <==>
                  !ExpiresBetween(s.entries, w.key, t, t') || s.entries.rows[w.key].createdAt == t')
  {
    hide Evict, Remove;
    EvictIsRemoval(s, t);
    EvictIsRemoval(s, t');
    EvictedGet(s, t, w.key);
    EvictedGet(s, t', w.key);
    var early, late := Dead(s.entries, t), Dead(s.entries, t');
    assert early <= late;
    if k :| ExpiresBetween(s.entries, k, t, t') {
      assert k in late - early && |late| == |early| + |late - early| && |late - early| > 0;
    } else {
      assert late == early by {
        assert forall k :: k in late && k !in early ==> ExpiresBetween(s.entries, k, t, t');
      }
    }
  }

  lemma EvictedGet(s: Store, t: int, key: string)
    requires s.entries.Valid()
    ensures Evict(s, t).entries.Get(key) == if key in Dead(s.entries, t) then None else s.entries.Get(key)
  {
    EvictIsRemoval(s, t);
  }

  /** Evicting early leaves the rest to be evicted later. */
  lemma EvictEarlyAgrees(s: Store, i: Ideal, t: int)
    requires Agree(s, i) && t <= i.now
    ensures Agree(Evict(s, t), i)
  {
    hide Evict, Remove;
    EvictIsRemoval(s, t);
    var m, early, late := s.entries, Dead(s.entries, t), Dead(s.entries, i.now);
    assert Dead(Evict(s, t).entries, i.now) == late - early by {
      forall k ensures k in Dead(Evict(s, t).entries, i.now) <==> k in late - early {
        EvictedGet(s, t, k);
        assert k in Evict(s, t).entries.rows <==> Evict(s, t).entries.Get(k).Some?;
      }
    }
    assert early <= late && early + (late - early) == late && |late| == |early| + |late - early|;
    RemoveTwice(m, early, late - early);
  }

  /** An entry expires between the readings of a `set` that gets to write. */
  ghost predicate Disturbed(s: Store, t: int, t': int, op: Op) {
    op.OpSet? && op.w.value.Data? && exists k :: ExpiresBetween(s.entries, k, t, t')
  }

  /** Undisturbed, a `set` with two readings answers as the ideal store does at the later one and keeps them agreed. */
  lemma SecondReadingAgrees(s: Store, i: Ideal, t: int, w: Write)
    requires Agree(s, i) && t <= i.now && !Disturbed(s, t, i.now, OpSet(w))
    ensures SetTwice(s, t, i.now, w).1 == IdealStep(i, OpSet(w)).1.entry
    ensures Agree(SetTwice(s, t, i.now, w).0, IdealStep(i, OpSet(w)).0)
  {
    hide Remove, Evict, Commit, Agree;
    AgreeIsValid(s, i);
    if w.value.Unclonable? {
      EvictEarlyAgrees(s, i, t);
      MovedVersionAgrees(Evict(s, t), i);
    } else {
      EvictedAlike(s, t, i.now);
      EvictedEquals(s, i);
      LatePutIsAlive(Evict(s, t), i.now, w);
      AliveAgrees(SetTwice(s, t, i.now, w).0, IdealStep(i, OpSet(w)).0);
    }
  }

  lemma MovedVersionAgrees(s: Store, i: Ideal)
    requires Agree(s, i)
    ensures Agree(s.(version := s.version + 1), i.(version := i.version + 1))
  {
  }

  lemma EvictedAlike(s: Store, t: int, t': int)
    requires s.entries.Valid() && t <= t' && forall k :: !ExpiresBetween(s.entries, k, t, t')
    ensures var early, late := Evict(s, t), Evict(s, t');
            && early.entries == late.entries && early.version == late.version
            && early.entries.Valid() && AliveAt(early.entries, t')
  {
    hide Remove, Evict;
    EvictIsRemoval(s, t);
    EvictIsRemoval(s, t');
    var early, late := Dead(s.entries, t), Dead(s.entries, t');
    assert early == late by {
      assert forall k :: k in late && k !in early ==> ExpiresBetween(s.entries, k, t, t');
    }
    var m := Evict(s, t).entries;
    forall k | k in m.rows ensures !Expired(m.rows[k], t') {
      assert k !in Dead(m, t');
    }
  }

  lemma LatePutIsAlive(s: Store, t: int, w: Write)
    requires s.entries.Valid() && AliveAt(s.entries, t) && w.value.Data?
    ensures var s' := PutEntry(s, t, w).0;
            && s'.entries.Valid() && AliveAt(s'.entries, t) && s'.version == s.version + 1
            && s'.entries == s.entries.Put(w.key, NewEntry(s.entries, s.version + 1, t, w))
  {
    hide LastOf, DeliverAll;
  }

  /** An operation, its clock reading, and the second reading if it is a `set`. */
  datatype Reread = Reread(at: int, later: int, op: Op)

  /** The last reading taken. */
  function LastReading(r: Reread): int {
    if r.op.OpSet? then r.later else r.at
  }

  function StepTwice(s: Store, r: Reread): (Store, Answer) {
    if r.op.OpSet? then var (s', e) := SetTwice(s, r.at, r.later, r.op.w); (s', One(e)) else Step(s, r.at, r.op)
  }

  function AnswersTwice(s: Store, ops: seq<Reread>): seq<Answer>
    decreases |ops|
  {
    if ops == [] then [] else [StepTwice(s, ops[0]).1] + AnswersTwice(StepTwice(s, ops[0]).0, ops[1..])
  }

  predicate Chronological(from: int, ops: seq<Reread>)
    decreases |ops|
  {
    ops == [] || (from <= ops[0].at <= ops[0].later && Chronological(LastReading(ops[0]), ops[1..]))
  }

  /** Each operation taken at its last reading. */
  function Lastly(ops: seq<Reread>): (timed: seq<Timed>)
    ensures |timed| == |ops|
  {
    seq(|ops|, k requires 0 <= k < |ops| => Timed(LastReading(ops[k]), ops[k].op))
  }

  ghost predicate Undisturbed(s: Store, ops: seq<Reread>)
    decreases |ops|
  {
    ops == [] || (
      && !Disturbed(s, ops[0].at, ops[0].later, ops[0].op)
      && Undisturbed(StepTwice(s, ops[0]).0, ops[1..]))
  }

  lemma {:induction false} LastlyIsNondecreasing(from: int, ops: seq<Reread>)
    requires Chronological(from, ops)
    ensures Nondecreasing(from, Lastly(ops))
    decreases |ops|
  {
    if ops != [] {
      LastlyIsNondecreasing(LastReading(ops[0]), ops[1..]);
      assert Lastly(ops)[1..] == Lastly(ops[1..]);
    }
  }

  /**
   With a second reading in each `set`, the answers of a run are those of the ideal store at the last readings if and
   only if no entry, whatever its key, expires between the two readings of a `set` that gets to write.
   */
  lemma {:induction false} TwoReadingsAreEagerIff(s: Store, i: Ideal, ops: seq<Reread>)
    requires Agree(s, i) && Chronological(i.now, ops)
    ensures Nondecreasing(i.now, Lastly(ops))
    ensures AnswersTwice(s, ops) == IdealAnswers(i, Lastly(ops)) <==> Undisturbed(s, ops)
    decreases |ops|
  {
    hide Step, IdealStep, Agree, WaitUntil, SetTwice, Disturbed;
    LastlyIsNondecreasing(i.now, ops);
    if ops != [] {
      var r, t := ops[0], LastReading(ops[0]);
      var j := WaitUntil(i, t);
      WaitKeepsTime(i, t);
      WaitAgrees(s, i, t);
      assert Lastly(ops)[1..] == Lastly(ops[1..]);
      StepTwiceAgreesIff(s, j, r);
      if !Disturbed(s, r.at, r.later, r.op) {
        TwoReadingsAreEagerIff(StepTwice(s, r).0, IdealStep(j, r.op).0, ops[1..]);
        SameTails(StepTwice(s, r).1, AnswersTwice(StepTwice(s, r).0, ops[1..]),
          IdealAnswers(IdealStep(j, r.op).0, Lastly(ops[1..])));
      } else {
        assert AnswersTwice(s, ops)[0] != IdealAnswers(i, Lastly(ops))[0];
      }
    }
  }

  lemma SameTails(head: Answer, a: seq<Answer>, b: seq<Answer>)
    ensures [head] + a == [head] + b <==> a == b
  {
    assert ([head] + a)[1..] == a && ([head] + b)[1..] == b;
  }

  lemma StepTwiceAgreesIff(s: Store, i: Ideal, r: Reread)
    requires Agree(s, i) && r.at <= i.now && i.now == LastReading(r)
    ensures StepTwice(s, r).1 == IdealStep(i, r.op).1 <==> !Disturbed(s, r.at, r.later, r.op)
    ensures !Disturbed(s, r.at, r.later, r.op) ==>
              Agree(StepTwice(s, r).0, IdealStep(i, r.op).0) && IdealStep(i, r.op).0.now == i.now
  {
    hide Agree, Step, SetTwice, ExpiresBetween, SetEntry;
    AgreeIsValid(s, i);
    StepAgrees(s, i, r.op);
    if r.op.OpSet? {
      assert Step(s, i.now, r.op).1.entry == SetEntry(s, i.now, r.op.w).1 by { SetAnswer(s, i.now, r.op.w); }
      if Disturbed(s, r.at, r.later, r.op) {
        SecondReadingIsHarmlessIff(s, r.at, r.later, r.op.w);
        BothWrite(s, r.at, r.later, r.op.w);
      } else {
        SecondReadingAgrees(s, i, r.at, r.op.w);
      }
    }
  }

  lemma SetAnswer(s: Store, t: int, w: Write)
    ensures Step(s, t, OpSet(w)).1 == One(SetEntry(s, t, w).1)
  {
  }

  lemma BothWrite(s: Store, t: int, t': int, w: Write)
    requires w.value.Data?
    ensures SetTwice(s, t, t', w).1.Some? && SetEntry(s, t', w).1.Some?
  {
  }

  /** Otherwise an entry that expires in between passes its creation time on, as if it had never expired. */
  lemma TwoReadingsShow(s: Store, w: Write, e: Entry)
    requires s.entries == Empty().Put("k", e) && w.value.Data? && w.key == "k"
    requires e.createdAt == 0 && e.expiresAt == Some(1)
    ensures SetTwice(s, 0, 1, w).1.value.createdAt == 0 && SetEntry(s, 1, w).1.value.createdAt == 1
  {
    hide Evict;
    assert s.entries.Valid();
    EvictedGet(s, 0, "k");
    EvictedGet(s, 1, "k");
  }

  // ---------------------------------------------------------------------------------------------
  // Batches
  // ---------------------------------------------------------------------------------------------

  predicate AllClonable(ws: seq<Write>) {
    forall k :: 0 <= k < |ws| ==> ws[k].value.Data?
  }

  function Sets(s: Store, t: int, ws: seq<Write>): Store {
    if ws == [] then s else SetEntry(Sets(s, t, ws[..|ws| - 1]), t, ws[|ws| - 1]).0
  }

  lemma {:induction false} StageFailsAtFirst(entries: JsMap<Entry>, version: nat, t: int, ws: seq<Write>)
    ensures var f := Stage(entries, version, t, ws).failed;
            if AllClonable(ws) then f.None?
            else f.Some? && f.value < |ws| && ws[f.value].value.Unclonable? && AllClonable(ws[..f.value])
  {
    if ws != [] {
      var front := ws[..|ws| - 1];
      StageFailsAtFirst(entries, version, t, front);
      var f := Stage(entries, version, t, front).failed;
      if f.Some? {
        assert front[..f.value] == ws[..f.value];
        assert ws[f.value].value.Unclonable?;
      }
    }
  }

  lemma EvictAliveIsIdle(s: Store, t: int)
    requires s.entries.Valid() && AliveAt(s.entries, t)
    ensures Evict(s, t) == s
  {
    EvictNoneOf(s, t, s.entries.keys);
  }

  lemma {:induction false} EvictNoneOf(s: Store, t: int, keys: seq<string>)
    requires AliveAt(s.entries, t)
    ensures EvictKeys(s, t, keys) == s
  {
    if keys != [] {
      EvictNoneOf(s, t, keys[..|keys| - 1]);
    }
  }

  lemma RecordCommutes(s: Store, event: Event, entries: JsMap<Entry>, version: nat)
    ensures Record(s.(entries := entries, version := version), event)
         == Record(s, event).(entries := entries, version := version)
  {
  }

  lemma {:induction false} RecordAllCommutes(s: Store, events: seq<Event>, entries: JsMap<Entry>, version: nat)
    ensures RecordAll(s.(entries := entries, version := version), events)
         == RecordAll(s, events).(entries := entries, version := version)
  {
    hide Record;
    if events != [] {
      RecordAllCommutes(s, events[..|events| - 1], entries, version);
      RecordCommutes(RecordAll(s, events[..|events| - 1]), events[|events| - 1], entries, version);
    }
  }

  /** Sending one more staged event commits it. */
  lemma OneMoreStaged(base: Store, events: seq<Event>, event: Event, entries: JsMap<Entry>, version: nat,
    entries': JsMap<Entry>)
    requires
      var mid := RecordAll(base.(entries := entries, version := version), events);
      entries' == Effect(mid.entries, event)
    ensures RecordAll(base.(entries := entries', version := event.version), events + [event])
         == Commit(RecordAll(base.(entries := entries, version := version), events), event)
  {
    hide Record, Effect;
    assert (events + [event])[..|events + [event]| - 1] == events;
    RecordAllCommutes(base, events, entries, version);
    RecordAllCommutes(base, events, entries', event.version);
    RecordCommutes(RecordAll(base, events), event, entries', event.version);
  }

  /** Staging writes on an evicted store and then sending the events is the same as setting one after the other. */
  lemma {:induction false} StagedIsSequential(base: Store, t: int, ws: seq<Write>)
    requires base.entries.Valid() && AliveAt(base.entries, t) && AllClonable(ws)
    ensures var b := Stage(base.entries, base.version, t, ws);
            RecordAll(base.(entries := b.entries, version := b.version), b.events) == Sets(base, t, ws)
    ensures Sets(base, t, ws).entries.Valid() && AliveAt(Sets(base, t, ws).entries, t)
  {
    hide Record, RecordAll, Evict, NewEntry, AliveAt, JsMap.Put;
    if ws == [] {
      Blackboard.RecordNothing(base);
    } else {
      var front, w := ws[..|ws| - 1], ws[|ws| - 1];
      StagedIsSequential(base, t, front);
      StageFailsAtFirst(base.entries, base.version, t, front);
      var b := Stage(base.entries, base.version, t, front);
      var mid := Sets(base, t, front);
      RecordAllKeepsEntries(base.(entries := b.entries, version := b.version), b.events);
      EvictAliveIsIdle(mid, t);
      PutStaysAlive(mid.entries, mid.version, t, w);
      var event := SetEvent(mid.entries, mid.version + 1, t, w);
      OneMoreStaged(base, b.events, event, b.entries, b.version, Effect(mid.entries, event));
      RecordKeepsEntries(mid.(entries := Effect(mid.entries, event), version := event.version), event);
    }
  }

  lemma RecordKeepsEntries(s: Store, event: Event)
    ensures Record(s, event).entries == s.entries && Record(s, event).version == s.version
  {
  }

  lemma PutStaysAlive(m: JsMap<Entry>, version: nat, t: int, w: Write)
    requires m.Valid() && AliveAt(m, t) && w.value.Data?
    ensures var m' := m.Put(w.key, NewEntry(m, version + 1, t, w)); m'.Valid() && AliveAt(m', t)
  {
  }

  /**
   A batch is all or nothing. It fails exactly when some value cannot be copied, names the first such index,
   and then leaves the store as eviction alone would; otherwise the store, its history and its watchers are
   those of setting the entries one after the other at the same clock reading.
   */
  lemma BatchIsAtomic(s: Store, t: int, ws: seq<Write>)
    requires s.entries.Valid()
    ensures var (s', r) := BatchSet(s, t, ws);
            && (r.Ok? <==> AllClonable(ws))
            && (r.Ok? ==> s' == Sets(Evict(s, t), t, ws))
            && (r.Ok? && ws != [] ==> s' == Sets(s, t, ws))
            && (r.Err? ==>
                  s' == Evict(s, t)
                  && r.error < |ws| && ws[r.error].value.Unclonable? && AllClonable(ws[..r.error]))
  {
    hide Evict, Stage, RecordAll, Sets;
    var base := Evict(s, t);
    EvictIsRemoval(s, t);
    assert AliveAt(base.entries, t) by {
      forall k | k in base.entries.rows ensures !Expired(base.entries.rows[k], t) {
        assert k !in Dead(base.entries, t);
      }
    }
    StageFailsAtFirst(base.entries, base.version, t, ws);
    if AllClonable(ws) {
      StagedIsSequential(base, t, ws);
      if ws != [] {
        SetsEvictFirst(s, t, ws);
      }
    }
  }

  lemma {:induction false} SetsEvictFirst(s: Store, t: int, ws: seq<Write>)
    requires s.entries.Valid() && ws != []
    ensures Sets(Evict(s, t), t, ws) == Sets(s, t, ws)
  {
    hide PutEntry, Evict;
    if |ws| == 1 {
      assert ws[..0] == [];
      EvictIsRemoval(s, t);
      var base := Evict(s, t);
      assert AliveAt(base.entries, t) by {
        forall k | k in base.entries.rows ensures !Expired(base.entries.rows[k], t) {
          assert k !in Dead(base.entries, t);
        }
      }
      EvictAliveIsIdle(base, t);
    } else {
      SetsEvictFirst(s, t, ws[..|ws| - 1]);
    }
  }
}
