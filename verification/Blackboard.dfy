/**
 The blackboard class (src/coord/blackboard.ts, lines 107-408): entries, history and watchers are updated in
 place, and every method takes the step of `BlackboardSpec`.
 */
module Blackboard {
  import opened Outcomes
  import opened JsMaps
  import opened BlackboardSpec

  class BlackboardStore {
    var entries: JsMap<Entry>
    var events: seq<Event>
    const historyLimit: nat
    var version: nat
    var watchers: seq<Watcher>
    /** Every event emitted so far. */
    ghost var log: seq<Event>

    constructor (historyLimit: Option<int>)
      ensures this.historyLimit == if historyLimit.GetOr(500) < 1 then 1 else historyLimit.GetOr(500)
      ensures Abs() == NewStore(this.historyLimit) && entries.Valid()
    {
      this.historyLimit := if historyLimit.GetOr(500) < 1 then 1 else historyLimit.GetOr(500);
      entries, events, version, watchers, log := Empty(), [], 0, [], [];
    }

    ghost function Abs(): Store
      reads this
    {
      Store(entries, events, version, historyLimit, watchers, log)
    }

    /** The clock is read for the eviction, and `later` for the write. */
    method Set(t: int, later: int, w: Write) returns (r: Option<Entry>)
      requires entries.Valid()
      modifies this
      ensures entries.Valid() && (Abs(), r) == SetTwice(old(Abs()), t, later, w)
    {
      hide Evict, Record;
      var _ := EvictExpired(t);
      var existing := entries.Get(w.key);
      version := version + 1;
      if w.value.Unclonable? {
        // `structuredClone` throws here, after the version has moved.
        return None;
      }
      var expiresAt := if w.ttlMs.Some? then Some(later + Lifetime(w.ttlMs.value)) else None;
      var createdAt := if existing.Some? then existing.value.createdAt else later;
      var entry := Entry(w.key, w.value.text, w.tags, createdAt, later, expiresAt, version);
      entries := entries.Put(w.key, entry);
      RecordEvent(Event(version, EventKind.Set, w.key, later, Some(entry), existing));
      return Some(entry);
    }

    method BatchSet(t: int, ws: seq<Write>) returns (r: Result<seq<Entry>, nat>)
      requires entries.Valid()
      modifies this
      ensures entries.Valid() && (Abs(), r) == BlackboardSpec.BatchSet(old(Abs()), t, ws)
    {
      hide Evict, Record, RecordAll, Stage, JsMap.Put, Lifetime, Written;
      var _ := EvictExpired(t);
      StageNothing(entries, version, t);
      if |ws| == 0 {
        RecordNothing(Abs());
        assert ws == [];
        return Ok([]);
      }
      ghost var base := Abs();
      var originalEntries := entries;
      var nextVersion := version;
      var committed: seq<Entry> := [];
      var eventsToEmit: seq<Event> := [];
      for n := 0 to |ws|
        invariant entries.Valid() && Abs() == base.(entries := entries)
        invariant Stage(base.entries, base.version, t, ws[..n]) == Batch(entries, nextVersion, eventsToEmit, None)
        invariant |committed| == |eventsToEmit|
        invariant forall k :: 0 <= k < |committed| ==> eventsToEmit[k].entry == Some(committed[k])
      {
        var w := ws[n];
        StageNext(base.entries, base.version, t, ws, n);
        var previous := entries.Get(w.key);
        if w.value.Unclonable? {
          entries := originalEntries;
          return Err(n);
        }
        var expiresAt := if w.ttlMs.Some? then Some(t + Lifetime(w.ttlMs.value)) else None;
        var createdAt := if previous.Some? then previous.value.createdAt else t;
        nextVersion := nextVersion + 1;
        var entry := Entry(w.key, w.value.text, w.tags, createdAt, t, expiresAt, nextVersion);
        entries := entries.Put(w.key, entry);
        committed := committed + [entry];
        eventsToEmit := eventsToEmit + [Event(nextVersion, EventKind.Set, w.key, t, Some(entry), previous)];
      }
      assert ws[..|ws|] == ws;
      version := nextVersion;
      RecordEvents(eventsToEmit);
      StagedEventsCarryEntries(base.entries, base.version, t, ws);
      WrittenAre(eventsToEmit, committed);
      return Ok(committed);
    }

    /** The events of a batch go out once all its entries are in. */
    method RecordEvents(eventsToEmit: seq<Event>)
      modifies this`events, this`watchers, this`log
      ensures Abs() == RecordAll(old(Abs()), eventsToEmit)
    {
      hide Record, RecordAll;
      ghost var staged := Abs();
      RecordNothing(staged);
      for n := 0 to |eventsToEmit|
        invariant Abs() == RecordAll(staged, eventsToEmit[..n])
      {
        RecordNext(staged, eventsToEmit, n);
        RecordEvent(eventsToEmit[n]);
      }
      assert eventsToEmit[..|eventsToEmit|] == eventsToEmit;
    }

    method Get(t: int, key: string) returns (r: Option<Entry>)
      requires entries.Valid()
      modifies this
      ensures entries.Valid() && (Abs(), r) == GetEntry(old(Abs()), t, key)
    {
      var _ := EvictExpired(t);
      r := entries.Get(key);
    }

    method Delete(t: int, key: string) returns (deleted: bool)
      requires entries.Valid()
      modifies this
      ensures entries.Valid() && (Abs(), deleted) == DeleteEntry(old(Abs()), t, key)
    {
      hide Evict, Record;
      var _ := EvictExpired(t);
      if !entries.Has(key) {
        return false;
      }
      var previous := entries.rows[key];
      entries := entries.Delete(key);
      version := version + 1;
      RecordEvent(Event(version, EventKind.Delete, key, t, None, Some(previous)));
      return true;
    }

    method Query(t: int, keys: Option<set<string>>, tags: Option<set<string>>) returns (found: seq<Entry>)
      requires entries.Valid()
      modifies this
      ensures entries.Valid() && (Abs(), found) == BlackboardSpec.Query(old(Abs()), t, keys, tags)
    {
      hide Evict, SortByUpdate;
      var _ := EvictExpired(t);
      var ks := entries.keys;
      var snapshots: seq<Entry> := [];
      for n := 0 to |ks|
        invariant snapshots == Select(entries, ks[..n], keys, tags)
      {
        assert ks[..n + 1][..n] == ks[..n];
        var entry := entries.rows[ks[n]];
        if keys.Some? && entry.key !in keys.value {
          continue;
        }
        if tags.Some? && !(tags.value <= entry.tags) {
          continue;
        }
        snapshots := snapshots + [entry];
      }
      assert ks[..|ks|] == ks;
      found := SortByUpdate(snapshots);
    }

    method EvictExpired(t: int) returns (expired: seq<Event>)
      requires entries.Valid()
      modifies this
      ensures entries.Valid() && Abs() == Evict(old(Abs()), t)
      ensures log == old(log) + expired
    {
      hide Record, EvictKeys;
      ghost var base := Abs();
      var snapshot := entries.keys;
      EvictNobody(base, t);
      expired := [];
      for n := 0 to |snapshot|
        invariant entries.Valid()
        invariant Abs() == EvictKeys(base, t, snapshot[..n])
        invariant log == base.log + expired
      {
        var key := snapshot[n];
        EvictNext(base, t, snapshot, n);
        // An entry still to visit is untouched, so looking it up again reads the snapshot.
        EvictKeepsRest(base, t, snapshot, n);
        if Expired(entries.rows[key], t) {
          var previous := entries.rows[key];
          entries := entries.Delete(key);
          version := version + 1;
          var event := Event(version, EventKind.Expire, key, t, None, Some(previous));
          RecordEvent(event);
          expired := expired + [event];
        }
      }
      assert snapshot[..|snapshot|] == snapshot;
    }

    method GetEventsSince(t: int, from: int, limit: Option<int>) returns (found: seq<Event>)
      requires entries.Valid()
      modifies this
      ensures entries.Valid() && (Abs(), found) == EventsSince(old(Abs()), t, from, limit)
    {
      hide Evict;
      var _ := EvictExpired(t);
      var filtered: seq<Event> := [];
      for n := 0 to |events|
        invariant filtered == Above(events[..n], from)
      {
        assert events[..n + 1][..n] == events[..n];
        if events[n].version > from {
          filtered := filtered + [events[n]];
        }
      }
      assert events[..|events|] == events;
      found := FirstOf(filtered, limit);
    }

    method Watch(t: int, from: int)
      requires entries.Valid()
      modifies this
      ensures entries.Valid() && Abs() == BlackboardSpec.Watch(old(Abs()), t, from)
    {
      hide Evict, Above;
      var backlog := GetEventsSince(t, from, None);
      var lastDelivered := from;
      var delivered: seq<Event> := [];
      for n := 0 to |backlog|
        invariant delivered == backlog[..n] && lastDelivered == LastVersion(from, backlog[..n])
      {
        assert backlog[..n + 1][..n] == backlog[..n];
        delivered := delivered + [backlog[n]];
        lastDelivered := Max(lastDelivered, backlog[n].version);
      }
      assert backlog[..|backlog|] == backlog;
      watchers := watchers + [Watcher(from, lastDelivered, delivered)];
    }

    method ClearHistory()
      modifies this`events
      ensures Abs() == BlackboardSpec.ClearHistory(old(Abs()))
    {
      events := [];
    }

    method RecordEvent(event: Event)
      modifies this`events, this`watchers, this`log
      ensures Abs() == Record(old(Abs()), event) && log == old(log) + [event]
    {
      events := events + [event];
      if |events| > historyLimit {
        events := events[|events| - historyLimit..];
      }
      var updated: seq<Watcher> := [];
      for n := 0 to |watchers|
        invariant |updated| == n && forall k :: 0 <= k < n ==> updated[k] == Deliver(watchers[k], event)
      {
        var w := watchers[n];
        if event.version > w.lastDelivered {
          w := w.(lastDelivered := event.version, delivered := w.delivered + [event]);
        }
        updated := updated + [w];
      }
      assert updated == DeliverAll(watchers, event);
      watchers := updated;
      log := log + [event];
    }
  }

  lemma RecordNothing(s: Store)
    ensures RecordAll(s, []) == s
  {
  }

  lemma RecordNext(s: Store, events: seq<Event>, n: nat)
    requires n < |events|
    ensures RecordAll(s, events[..n + 1]) == Record(RecordAll(s, events[..n]), events[n])
  {
    hide Record;
    assert events[..n + 1][..n] == events[..n];
  }

  lemma StageNothing(entries: JsMap<Entry>, version: nat, t: int)
    ensures Stage(entries, version, t, []) == Batch(entries, version, [], None)
    ensures Written([]) == []
  {
  }

  /** What the loop of a batch does with the write at `n`, all earlier ones being staged. */
  lemma StageNext(entries: JsMap<Entry>, version: nat, t: int, ws: seq<Write>, n: nat)
    requires n < |ws| && Stage(entries, version, t, ws[..n]).failed.None?
    ensures var b := Stage(entries, version, t, ws[..n]);
            if ws[n].value.Unclonable? then Stage(entries, version, t, ws).failed == Some(n)
            else
              Stage(entries, version, t, ws[..n + 1])
                == Batch(b.entries.Put(ws[n].key, NewEntry(b.entries, b.version + 1, t, ws[n])), b.version + 1,
                     b.events + [SetEvent(b.entries, b.version + 1, t, ws[n])], None)
  {
    hide NewEntry;
    assert ws[..n + 1][..n] == ws[..n];
    if ws[n].value.Unclonable? {
      StageStopsAt(entries, version, t, ws, n);
    }
  }

  lemma {:induction false} StageStopsAt(entries: JsMap<Entry>, version: nat, t: int, ws: seq<Write>, n: nat)
    requires n < |ws| && ws[n].value.Unclonable? && Stage(entries, version, t, ws[..n]).failed.None?
    ensures Stage(entries, version, t, ws).failed == Some(n)
    decreases |ws|
  {
    hide NewEntry;
    var front := ws[..|ws| - 1];
    if n == |ws| - 1 {
      assert ws[..n] == front;
    } else {
      assert front[..n] == ws[..n];
      StageStopsAt(entries, version, t, front, n);
    }
  }

  lemma WrittenAre(events: seq<Event>, entries: seq<Entry>)
    requires |entries| == |events| && forall k :: 0 <= k < |entries| ==> events[k].entry == Some(entries[k])
    ensures (forall e :: e in events ==> e.entry.Some?) && Written(events) == entries
  {
  }

  lemma EvictNobody(s: Store, t: int)
    ensures EvictKeys(s, t, []) == s
  {
  }

  lemma EvictNext(s: Store, t: int, keys: seq<string>, n: nat)
    requires n < |keys|
    ensures EvictKeys(s, t, keys[..n + 1]) == EvictOne(EvictKeys(s, t, keys[..n]), t, keys[n])
  {
    hide EvictOne;
    assert keys[..n + 1][..n] == keys[..n];
  }

  /** Evicting some keys removes only those among them that expired. */
  lemma {:induction false} EvictTouchesItsKeys(s: Store, t: int, keys: seq<string>)
    ensures var s' := EvictKeys(s, t, keys);
            && s'.limit == s.limit
            && (s.entries.Valid() ==> s'.entries.Valid())
            && (forall k :: s'.entries.Get(k) ==
                  if k in keys && s.entries.Has(k) && Expired(s.entries.rows[k], t) then None else s.entries.Get(k))
  {
    hide DeliverAll, LastOf;
    if keys != [] {
      EvictTouchesItsKeys(s, t, keys[..|keys| - 1]);
    }
  }

  lemma EvictKeepsRest(s: Store, t: int, keys: seq<string>, n: nat)
    requires s.entries.Valid() && keys == s.entries.keys && n < |keys|
    ensures var s' := EvictKeys(s, t, keys[..n]);
            s'.entries.Has(keys[n]) && s'.entries.rows[keys[n]] == s.entries.rows[keys[n]]
  {
    EvictTouchesItsKeys(s, t, keys[..n]);
    assert keys[n] !in keys[..n];
    assert EvictKeys(s, t, keys[..n]).entries.Get(keys[n]) == s.entries.Get(keys[n]);
  }
}
