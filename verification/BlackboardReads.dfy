/**
 What a reader of the blackboard finds, told by what was written (src/coord/blackboard.ts, lines 121-289).
 */
module BlackboardReads {
  import opened Outcomes
  import opened JsMaps
  import opened BlackboardSpec
  import opened BlackboardProofs
  import Blackboard
  import BlackboardHistory

  // ---------------------------------------------------------------------------------------------
  // A written entry
  // ---------------------------------------------------------------------------------------------

  /** The entry under `key` that has not expired at `t`. */
  function LiveAt(s: Store, key: string, t: int): Option<Entry> {
    if s.entries.Has(key) && (s.entries.rows[key].expiresAt.None? || t < s.entries.rows[key].expiresAt.value)
    then Some(s.entries.rows[key])
    else None
  }

  /** `e` is what writing `w` at `t` leaves, given the entry `before` still alive then. */
  predicate Wrote(e: Entry, w: Write, t: int, before: Option<Entry>) {
    && w.value.Data? && e.key == w.key && e.value == w.value.text && e.tags == w.tags
    && e.updatedAt == t && e.createdAt == (if before.Some? then before.value.createdAt else t)
    && (w.ttlMs.None? <==> e.expiresAt.None?)
    && (w.ttlMs.Some? ==>
          e.expiresAt.value == t + if w.ttlMs.value.Floor < 1 then 1 else w.ttlMs.value.Floor)
  }

  /** The lifetime of `w`, written at `t`, is not over at `t'`. */
  predicate StillLives(w: Write, t: int, t': int) {
    w.ttlMs.None? || t' < t + 1 || t' < t + w.ttlMs.value.Floor
  }

  lemma LiveIsEvicted(s: Store, key: string, t: int)
    requires s.entries.Valid()
    ensures Evict(s, t).entries.Valid() && Evict(s, t).entries.Get(key) == LiveAt(s, key, t)
  {
    hide Evict;
    EvictIsRemoval(s, t);
    EvictedGet(s, t, key);
  }

  lemma SetWrites(s: Store, t: int, later: int, w: Write)
    requires s.entries.Valid() && w.value.Data?
    ensures var (s', r) := SetTwice(s, t, later, w);
            && r.Some? && s'.entries.Get(w.key) == r && Wrote(r.value, w, later, LiveAt(s, w.key, t))
            && s'.entries.Valid() && r.value.version == s'.version
  {
    hide Evict, LastOf, DeliverAll;
    LiveIsEvicted(s, w.key, t);
  }

  // ---------------------------------------------------------------------------------------------
  // Reading it back
  // ---------------------------------------------------------------------------------------------

  /** The operation writes or deletes under `key`; a `set` or batch that fails does neither. */
  predicate Touches(op: Op, key: string) {
    match op
    case OpSet(w) => w.value.Data? && w.key == key
    case OpBatch(ws) => AllClonable(ws) && exists k :: 0 <= k < |ws| && ws[k].key == key
    case OpDelete(k) => k == key
    case _ => false
  }

  /** `e` is under its key, or it is gone and its time is up. */
  ghost predicate Holds(s: Store, e: Entry, now: int) {
    s.entries.Valid() && (s.entries.Get(e.key) == Some(e) || (s.entries.Get(e.key) == None && Expired(e, now)))
  }

  lemma EvictHolds(s: Store, e: Entry, before: int, t: int)
    requires Holds(s, e, before) && before <= t
    ensures Holds(Evict(s, t), e, t)
  {
    hide Evict;
    LiveIsEvicted(s, e.key, t);
  }

  lemma {:induction false} StageLeavesOthers(entries: JsMap<Entry>, version: nat, t: int, ws: seq<Write>, key: string)
    requires entries.Valid() && forall k :: 0 <= k < |ws| ==> ws[k].key != key
    ensures var b := Stage(entries, version, t, ws); b.entries.Valid() && b.entries.Get(key) == entries.Get(key)
  {
    hide NewEntry;
    if ws != [] {
      StageLeavesOthers(entries, version, t, ws[..|ws| - 1], key);
    }
  }

  lemma StepHolds(s: Store, e: Entry, before: int, t: int, op: Op)
    requires Holds(s, e, before) && before <= t && !Touches(op, e.key)
    ensures Holds(Step(s, t, op).0, e, t)
  {
    hide Evict, LastOf, DeliverAll, NewEntry, Stage, RecordAll, SortByUpdate, Above;
    EvictHolds(s, e, before, t);
    var base := Evict(s, t);
    match op
    case OpSet(w) =>
    case OpBatch(ws) =>
      StageFailsAtFirst(base.entries, base.version, t, ws);
      if AllClonable(ws) {
        var b := Stage(base.entries, base.version, t, ws);
        StageLeavesOthers(base.entries, base.version, t, ws, e.key);
        RecordAllKeepsEntries(base.(entries := b.entries, version := b.version), b.events);
      }
    case OpDelete(key) =>
    case OpGet(_) =>
    case OpQuery(_, _) =>
    case OpEvict =>
    case OpSince(_, _) =>
    case OpWatch(_) =>
    case OpClear =>
  }

  /** The clock after a run. */
  function LastTime(from: int, ops: seq<Timed>): int
    decreases |ops|
  {
    if ops == [] then from else LastTime(ops[0].at, ops[1..])
  }

  lemma {:induction false} RunHolds(s: Store, e: Entry, now: int, ops: seq<Timed>)
    requires Holds(s, e, now) && Nondecreasing(now, ops)
    requires forall k :: 0 <= k < |ops| ==> !Touches(ops[k].op, e.key)
    ensures Holds(Run(s, ops), e, LastTime(now, ops)) && now <= LastTime(now, ops)
    decreases |ops|
  {
    hide Step, Holds;
    if ops != [] {
      StepHolds(s, e, now, ops[0].at, ops[0].op);
      RunHolds(Step(s, ops[0].at, ops[0].op).0, e, ops[0].at, ops[1..]);
    }
  }

  lemma HeldIsRead(s: Store, e: Entry, now: int, t: int)
    requires Holds(s, e, now) && now <= t
    ensures GetEntry(s, t, e.key).1 == if e.expiresAt.None? || t < e.expiresAt.value then Some(e) else None
  {
    hide Evict;
    LiveIsEvicted(s, e.key, t);
  }

  /**
   What `set` stored at its second reading `later` is what `get` answers at `t'`, after any run that neither writes nor
   deletes under that key, if and only if there is no lifetime or it is not over; else there is no answer. The entry has
   the text and tags given, and the creation time of the entry alive at the first reading, or `later`.
   */
  lemma SetReadsBack(s: Store, t: int, later: int, w: Write, ops: seq<Timed>, t': int)
    requires s.entries.Valid() && w.value.Data?
    requires Nondecreasing(later, ops) && LastTime(later, ops) <= t'
    requires forall k :: 0 <= k < |ops| ==> !Touches(ops[k].op, w.key)
    ensures var (s', r) := SetTwice(s, t, later, w);
            && r.Some? && Wrote(r.value, w, later, LiveAt(s, w.key, t))
            && GetEntry(Run(s', ops), t', w.key).1 == if StillLives(w, later, t') then r else None
  {
    hide SetTwice, GetEntry, Run;
    SetWrites(s, t, later, w);
    var (s', r) := SetTwice(s, t, later, w);
    RunHolds(s', r.value, later, ops);
    HeldIsRead(Run(s', ops), r.value, LastTime(later, ops), t');
  }

  /** What is left under the key of `ws[k]`, its last write in the batch. */
  lemma {:induction false} StageWrites(entries: JsMap<Entry>, version: nat, t: int, ws: seq<Write>, k: nat)
    requires entries.Valid() && AllClonable(ws) && k < |ws| && forall j :: k < j < |ws| ==> ws[j].key != ws[k].key
    ensures var b := Stage(entries, version, t, ws);
            && b.failed.None? && b.entries.Valid() && b.entries.Get(ws[k].key).Some?
            && Wrote(b.entries.rows[ws[k].key], ws[k], t, entries.Get(ws[k].key))
            && |b.events| == |ws| && b.events[k].entry == b.entries.Get(ws[k].key)
  {
    hide JsMap.Put;
    var front, last := ws[..|ws| - 1], ws[|ws| - 1];
    StageFailsAtFirst(entries, version, t, front);
    if k < |ws| - 1 {
      StageWrites(entries, version, t, front, k);
      PutLeavesOthers(Stage(entries, version, t, front).entries, last.key,
        NewEntry(Stage(entries, version, t, front).entries, Stage(entries, version, t, front).version + 1, t, last));
    } else {
      StageKeepsCreation(entries, version, t, front, last.key);
      var b := Stage(entries, version, t, front);
      PutShows(b.entries, last.key, NewEntry(b.entries, b.version + 1, t, last));
    }
  }

  lemma PutLeavesOthers(m: JsMap<Entry>, key: string, e: Entry)
    requires m.Valid()
    ensures m.Put(key, e).Valid() && forall k :: k != key ==> m.Put(key, e).Get(k) == m.Get(k)
  {
  }

  lemma PutShows(m: JsMap<Entry>, key: string, e: Entry)
    requires m.Valid()
    ensures m.Put(key, e).Valid() && m.Put(key, e).Get(key) == Some(e)
  {
  }

  /** Within a batch the creation time is that of the entry before it, or the time of the batch. */
  lemma {:induction false} StageKeepsCreation(
    entries: JsMap<Entry>, version: nat, t: int, ws: seq<Write>, key: string)
    requires entries.Valid() && AllClonable(ws)
    ensures var b, before := Stage(entries, version, t, ws), entries.Get(key);
            && b.failed.None? && b.entries.Valid() && |b.events| == |ws|
            && (b.entries.Get(key) != before ==>
                  && b.entries.Get(key).Some?
                  && b.entries.rows[key].createdAt == if before.Some? then before.value.createdAt else t)
  {
    hide JsMap.Put;
    if ws != [] {
      var front, last := ws[..|ws| - 1], ws[|ws| - 1];
      StageKeepsCreation(entries, version, t, front, key);
      var b := Stage(entries, version, t, front);
      var e := NewEntry(b.entries, b.version + 1, t, last);
      PutLeavesOthers(b.entries, last.key, e);
      PutShows(b.entries, last.key, e);
    }
  }

  /** The same for a batch that succeeds and the last write it makes under a key. */
  lemma BatchReadsBack(s: Store, t: int, ws: seq<Write>, k: nat, ops: seq<Timed>, t': int)
    requires s.entries.Valid() && AllClonable(ws) && k < |ws| && forall j :: k < j < |ws| ==> ws[j].key != ws[k].key
    requires Nondecreasing(t, ops) && LastTime(t, ops) <= t'
    requires forall j :: 0 <= j < |ops| ==> !Touches(ops[j].op, ws[k].key)
    ensures var (s', r) := BatchSet(s, t, ws);
            && r.Ok? && |r.value| == |ws| && Wrote(r.value[k], ws[k], t, LiveAt(s, ws[k].key, t))
            && GetEntry(Run(s', ops), t', ws[k].key).1 == if StillLives(ws[k], t, t') then Some(r.value[k]) else None
  {
    hide Evict, Stage, RecordAll, GetEntry, Run, Wrote;
    var base := Evict(s, t);
    LiveIsEvicted(s, ws[k].key, t);
    var b := Stage(base.entries, base.version, t, ws);
    StageWrites(base.entries, base.version, t, ws, k);
    RecordAllKeepsEntries(base.(entries := b.entries, version := b.version), b.events);
    StagedEventsCarryEntries(base.entries, base.version, t, ws);
    var (s', r) := BatchSet(s, t, ws);
    var e := b.entries.rows[ws[k].key];
    assert r.value[k] == e;
    WrittenLives(e, ws[k], t, LiveAt(s, ws[k].key, t));
    RunHolds(s', e, t, ops);
    HeldIsRead(Run(s', ops), e, LastTime(t, ops), t');
  }

  lemma WrittenLives(e: Entry, w: Write, t: int, before: Option<Entry>)
    requires Wrote(e, w, t, before)
    ensures e.key == w.key
    ensures forall t' :: t <= t' ==> (StillLives(w, t, t') <==> e.expiresAt.None? || t' < e.expiresAt.value)
  {
  }

  /** A delete succeeds exactly on an entry that is alive, and nothing is read under its key afterwards. */
  lemma DeleteTakesAway(s: Store, t: int, key: string, ops: seq<Timed>, t': int)
    requires s.entries.Valid()
    requires Nondecreasing(t, ops) && forall k :: 0 <= k < |ops| ==> !Touches(ops[k].op, key)
    ensures var (s', deleted) := DeleteEntry(s, t, key);
            && (deleted <==> LiveAt(s, key, t).Some?)
            && GetEntry(Run(s', ops), t', key).1 == None
  {
    hide Evict, Run, LastOf, DeliverAll;
    LiveIsEvicted(s, key, t);
    var s' := DeleteEntry(s, t, key).0;
    RunStaysEmpty(s', ops, key);
    LiveIsEvicted(Run(s', ops), key, t');
  }

  lemma {:induction false} RunStaysEmpty(s: Store, ops: seq<Timed>, key: string)
    requires s.entries.Valid() && s.entries.Get(key) == None
    requires forall k :: 0 <= k < |ops| ==> !Touches(ops[k].op, key)
    ensures Run(s, ops).entries.Valid() && Run(s, ops).entries.Get(key) == None
    decreases |ops|
  {
    hide Step;
    if ops != [] {
      StepStaysEmpty(s, ops[0].at, ops[0].op, key);
      RunStaysEmpty(Step(s, ops[0].at, ops[0].op).0, ops[1..], key);
    }
  }

  lemma StepStaysEmpty(s: Store, t: int, op: Op, key: string)
    requires s.entries.Valid() && s.entries.Get(key) == None && !Touches(op, key)
    ensures Step(s, t, op).0.entries.Valid() && Step(s, t, op).0.entries.Get(key) == None
  {
    hide Evict, LastOf, DeliverAll, NewEntry, Stage, RecordAll, SortByUpdate, Above;
    LiveIsEvicted(s, key, t);
    var base := Evict(s, t);
    match op
    case OpSet(w) =>
    case OpBatch(ws) =>
      StageFailsAtFirst(base.entries, base.version, t, ws);
      if AllClonable(ws) {
        var b := Stage(base.entries, base.version, t, ws);
        StageLeavesOthers(base.entries, base.version, t, ws, key);
        RecordAllKeepsEntries(base.(entries := b.entries, version := b.version), b.events);
      }
    case OpDelete(k) =>
    case OpGet(_) =>
    case OpQuery(_, _) =>
    case OpEvict =>
    case OpSince(_, _) =>
    case OpWatch(_) =>
    case OpClear =>
  }

  // ---------------------------------------------------------------------------------------------
  // Queries and events
  // ---------------------------------------------------------------------------------------------

  /** What a query asks for: one of the keys, if any are given, and all of the tags, if any are given. */
  predicate Asked(e: Entry, keys: Option<set<string>>, tags: Option<set<string>>) {
    && (keys.Some? ==> e.key in keys.value)
    && (tags.Some? ==> forall tag :: tag in tags.value ==> tag in e.tags)
  }

  function Places(m: JsMap<Entry>, ks: seq<string>, e: Entry): set<string> {
    set k | k in ks && m.Get(k) == Some(e)
  }

  lemma OneMorePlace(m: JsMap<Entry>, ks: seq<string>, e: Entry)
    requires ks != [] && ks[|ks| - 1] !in ks[..|ks| - 1]
    ensures |Places(m, ks, e)| == |Places(m, ks[..|ks| - 1], e)| + if m.Get(ks[|ks| - 1]) == Some(e) then 1 else 0
  {
    var front, last := ks[..|ks| - 1], ks[|ks| - 1];
    assert ks == front + [last];
    if m.Get(last) == Some(e) {
      assert Places(m, ks, e) == Places(m, front, e) + {last};
    } else {
      assert Places(m, ks, e) == Places(m, front, e);
    }
  }

  lemma {:induction false} SelectShows(
    m: JsMap<Entry>, ks: seq<string>, keys: Option<set<string>>, tags: Option<set<string>>, e: Entry)
    requires forall i, j :: 0 <= i < j < |ks| ==> ks[i] != ks[j]
    ensures multiset(Select(m, ks, keys, tags))[e] == if Asked(e, keys, tags) then |Places(m, ks, e)| else 0
  {
    hide Asked, Selected, Places;
    SelectedIsAsked(keys, tags);
    if ks == [] {
      assert Places(m, ks, e) == {} by { NoPlaces(m, e); }
    } else {
      SelectShows(m, ks[..|ks| - 1], keys, tags, e);
      OneMorePlace(m, ks, e);
    }
  }

  lemma NoPlaces(m: JsMap<Entry>, e: Entry)
    ensures Places(m, [], e) == {}
  {
  }

  lemma SelectedIsAsked(keys: Option<set<string>>, tags: Option<set<string>>)
    ensures forall e :: Selected(e, keys, tags) <==> Asked(e, keys, tags)
  {
  }

  /** A query shows each live entry asked for as often as it is stored, and nothing else. */
  lemma QueryShowsTheLive(s: Store, t: int, keys: Option<set<string>>, tags: Option<set<string>>, e: Entry)
    requires s.entries.Valid()
    ensures multiset(Query(s, t, keys, tags).1)[e] ==
              if Asked(e, keys, tags) then |set k | k in s.entries.rows && LiveAt(s, k, t) == Some(e)| else 0
  {
    hide Evict, Select, SortByUpdate, Asked, LiveAt;
    var m := Evict(s, t).entries;
    forall k ensures m.Get(k) == LiveAt(s, k, t) {
      LiveIsEvicted(s, k, t);
    }
    LiveIsEvicted(s, "", t);
    SelectShows(m, m.keys, keys, tags, e);
    BlackboardHistory.QueryIsStableSort(Select(m, m.keys, keys, tags), 0);
    var live := set k | k in s.entries.rows && LiveAt(s, k, t) == Some(e);
    forall k ensures k in Places(m, m.keys, e) <==> k in live {
      assert m.Get(k) == LiveAt(s, k, t);
      LiveIsThere(s, k, t);
    }
    assert Places(m, m.keys, e) == live;
  }

  lemma LiveIsThere(s: Store, k: string, t: int)
    ensures LiveAt(s, k, t).Some? ==> k in s.entries.rows
  {
  }

  /** Events since a version: those retained above it, in order, cut to the limit. */
  lemma EventsSinceTells(s: Store, t: int, from: int, limit: Option<int>)
    requires BlackboardHistory.Inv(s)
    ensures var retained, found := Evict(s, t).events, EventsSince(s, t, from, limit).1;
            var all := EventsSince(s, t, from, None).1;
            && (forall e :: e in all <==> e in retained && e.version > from)
            && (forall i, j :: 0 <= i < j < |all| ==> all[i].version < all[j].version)
            && found <= all
            && |found| ==
               if limit.None? || |all| < limit.value then |all| else if limit.value < 0 then 0 else limit.value
  {
    hide Evict, Above;
    BlackboardHistory.EvictStepAdvances(s, t);
    RetainedInOrder(Evict(s, t));
    BlackboardHistory.AboveInOrder(Evict(s, t).events, from);
  }

  lemma RetainedInOrder(s: Store)
    requires BlackboardHistory.Inv(s)
    ensures BlackboardHistory.InOrder(s.events)
  {
    hide BlackboardHistory.Replay, BlackboardHistory.Truthful;
    forall i, j | 0 <= i < j < |s.events| ensures s.events[i].version < s.events[j].version {
      assert s.events[i] == s.log[|s.log| - |s.events| + i] && s.events[j] == s.log[|s.log| - |s.events| + j];
    }
  }

  // ---------------------------------------------------------------------------------------------
  // What the events of an operation say
  // ---------------------------------------------------------------------------------------------

  /** The event bears the time of the operation, and its kind has the right cause. */
  predicate Proper(event: Event, t: int, op: Op) {
    && event.timestamp == t
    && (event.kind == Set ==> Touches(op, event.key))
    && (event.kind == Delete ==> op == OpDelete(event.key))
    && (event.kind == Expire ==>
          event.previous.Some? && event.previous.value.expiresAt.Some? && event.previous.value.expiresAt.value <= t)
  }

  /** `after` is `before` and proper events of the operation. */
  predicate Adds(before: seq<Event>, after: seq<Event>, t: int, op: Op) {
    before <= after && forall i :: |before| <= i < |after| ==> Proper(after[i], t, op)
  }

  lemma AddsOne(before: seq<Event>, mid: seq<Event>, event: Event, t: int, op: Op)
    requires Adds(before, mid, t, op) && Proper(event, t, op)
    ensures Adds(before, mid + [event], t, op)
  {
  }

  lemma {:induction false} EvictAdds(s: Store, t: int, keys: seq<string>, op: Op)
    ensures Adds(s.log, EvictKeys(s, t, keys).log, t, op)
  {
    hide LastOf, DeliverAll;
    if keys != [] {
      var mid, k := EvictKeys(s, t, keys[..|keys| - 1]), keys[|keys| - 1];
      EvictAdds(s, t, keys[..|keys| - 1], op);
      if mid.entries.Has(k) && Expired(mid.entries.rows[k], t) {
        AddsOne(s.log, mid.log, Event(mid.version + 1, Expire, k, t, None, Some(mid.entries.rows[k])), t, op);
      }
    }
  }

  lemma {:induction false} RecordAllAdds(log: seq<Event>, s: Store, events: seq<Event>, t: int, op: Op)
    requires Adds(log, s.log, t, op) && forall k :: 0 <= k < |events| ==> Proper(events[k], t, op)
    ensures Adds(log, RecordAll(s, events).log, t, op)
  {
    hide LastOf, DeliverAll, Adds, Proper;
    if events != [] {
      RecordAllAdds(log, s, events[..|events| - 1], t, op);
      AddsOne(log, RecordAll(s, events[..|events| - 1]).log, events[|events| - 1], t, op);
    }
  }

  lemma {:induction false} StagedAreSets(entries: JsMap<Entry>, version: nat, t: int, ws: seq<Write>)
    ensures forall k :: 0 <= k < |Stage(entries, version, t, ws).events| ==>
              var event := Stage(entries, version, t, ws).events[k];
              k < |ws| && event.kind == Set && event.timestamp == t && event.key == ws[k].key
    ensures Stage(entries, version, t, ws).failed.None? ==> |Stage(entries, version, t, ws).events| == |ws|
    ensures |Stage(entries, version, t, ws).events| <= |ws|
  {
    hide NewEntry;
    if ws != [] {
      StagedAreSets(entries, version, t, ws[..|ws| - 1]);
    }
  }

  /** Every event of an operation is proper, whatever else it does. */
  lemma StepAddsProperEvents(s: Store, t: int, op: Op)
    requires s.entries.Valid()
    ensures Adds(s.log, Step(s, t, op).0.log, t, op)
  {
    hide EvictKeys, LastOf, DeliverAll, NewEntry, Stage, RecordAll, SortByUpdate, Above, Adds;
    EvictAdds(s, t, s.entries.keys, op);
    var base := Evict(s, t);
    match op
    case OpSet(w) =>
      if w.value.Data? {
        AddsOne(s.log, base.log, SetEvent(base.entries, base.version + 1, t, w), t, op);
      }
    case OpBatch(ws) =>
      var b := Stage(base.entries, base.version, t, ws);
      StagedAreSets(base.entries, base.version, t, ws);
      StageFailsAtFirst(base.entries, base.version, t, ws);
      if b.failed.None? {
        RecordAllAdds(s.log, base.(entries := b.entries, version := b.version), b.events, t, op);
      }
    case OpDelete(key) =>
      if base.entries.Has(key) {
        AddsOne(s.log, base.log, Event(base.version + 1, Delete, key, t, None, Some(base.entries.rows[key])), t, op);
      }
    case OpClear => assert Adds(s.log, s.log, t, op) by { AddsNothing(s.log, t, op); }
    case OpGet(_) =>
    case OpQuery(_, _) =>
    case OpEvict =>
    case OpSince(_, _) =>
    case OpWatch(_) =>
  }

  lemma AddsNothing(log: seq<Event>, t: int, op: Op)
    ensures Adds(log, log, t, op)
  {
  }
}
