/**
 The blackboard (src/coord/blackboard.ts) as steps on a state. Each operation takes one reading `t` of the clock; what
 a second one changes in `set` is told by `BlackboardProofs.TwoReadingsAreEagerIff`.
 */
module BlackboardSpec {
  import opened Outcomes
  import opened JsMaps

  /** A value `structuredClone` can copy, or one it throws on (a function, for instance). */
  datatype Payload = Data(text: string) | Unclonable

  datatype Entry = Entry(
    key: string, value: string, tags: set<string>, createdAt: int, updatedAt: int, expiresAt: Option<int>, version: nat)

  datatype EventKind = Set | Delete | Expire

  /** The `reason` field of the source is `ttl` exactly on expire events. */
  datatype Event = Event(version: nat, kind: EventKind, key: string, timestamp: int, entry: Option<Entry>,
    previous: Option<Entry>)

  /** A live watch: where it starts, the last version handed over, and all events handed over. */
  datatype Watcher = Watcher(from: int, lastDelivered: int, delivered: seq<Event>)

  /** `log` is every event ever emitted; `events` is the part still retained. */
  datatype Store = Store(
    entries: JsMap<Entry>, events: seq<Event>, version: nat, limit: nat, watchers: seq<Watcher>, log: seq<Event>)

  datatype Write = Write(key: string, value: Payload, tags: set<string>, ttlMs: Option<real>)

  function NewStore(limit: nat): Store {
    Store(Empty(), [], 0, limit, [], [])
  }

  // ---------------------------------------------------------------------------------------------
  // Events
  // ---------------------------------------------------------------------------------------------

  function Deliver(w: Watcher, event: Event): Watcher {
    if event.version <= w.lastDelivered then w else Watcher(w.from, event.version, w.delivered + [event])
  }

  function DeliverAll(ws: seq<Watcher>, event: Event): (ws': seq<Watcher>)
    ensures |ws'| == |ws|
    ensures forall k :: 0 <= k < |ws| ==> ws'[k] == Deliver(ws[k], event)
  {
    seq(|ws|, k requires 0 <= k < |ws| => Deliver(ws[k], event))
  }

  function LastOf(events: seq<Event>, limit: nat): seq<Event> {
    if |events| > limit then events[|events| - limit..] else events
  }

  function Record(s: Store, event: Event): Store {
    s.(events := LastOf(s.events + [event], s.limit), watchers := DeliverAll(s.watchers, event), log := s.log + [event])
  }

  function Effect(m: JsMap<Entry>, event: Event): JsMap<Entry> {
    if event.entry.Some? then m.Put(event.key, event.entry.value) else m.Delete(event.key)
  }

  /** The entries and the version change as the event says, and the event goes out. */
  function Commit(s: Store, event: Event): Store {
    Record(s.(entries := Effect(s.entries, event), version := event.version), event)
  }

  function RecordAll(s: Store, events: seq<Event>): Store {
    if events == [] then s else Record(RecordAll(s, events[..|events| - 1]), events[|events| - 1])
  }

  // ---------------------------------------------------------------------------------------------
  // Eviction
  // ---------------------------------------------------------------------------------------------

  predicate Expired(e: Entry, t: int) {
    e.expiresAt.Some? && e.expiresAt.value <= t
  }

  function EvictOne(s: Store, t: int, key: string): Store {
    if s.entries.Has(key) && Expired(s.entries.rows[key], t) then
      Commit(s, Event(s.version + 1, Expire, key, t, None, Some(s.entries.rows[key])))
    else s
  }

  function EvictKeys(s: Store, t: int, keys: seq<string>): Store {
    if keys == [] then s else EvictOne(EvictKeys(s, t, keys[..|keys| - 1]), t, keys[|keys| - 1])
  }

  function Evict(s: Store, t: int): Store {
    EvictKeys(s, t, s.entries.keys)
  }

  // ---------------------------------------------------------------------------------------------
  // Writes
  // ---------------------------------------------------------------------------------------------

  /** A lifetime is at least one millisecond. */
  function Lifetime(ttlMs: real): (ttl: int)
    ensures ttl >= 1
  {
    if ttlMs.Floor < 1 then 1 else ttlMs.Floor
  }

  function NewEntry(entries: JsMap<Entry>, version: nat, t: int, w: Write): Entry
    requires w.value.Data?
  {
    var existing := entries.Get(w.key);
    Entry(w.key, w.value.text, w.tags, if existing.Some? then existing.value.createdAt else t, t,
      if w.ttlMs.Some? then Some(t + Lifetime(w.ttlMs.value)) else None, version)
  }

  function SetEvent(entries: JsMap<Entry>, version: nat, t: int, w: Write): Event
    requires w.value.Data?
  {
    Event(version, Set, w.key, t, Some(NewEntry(entries, version, t, w)), entries.Get(w.key))
  }

  /** A write into a store already rid of expired entries. The version moves before the value is copied. */
  function PutEntry(s: Store, t: int, w: Write): (Store, Option<Entry>) {
    if w.value.Unclonable? then (s.(version := s.version + 1), None)
    else (Commit(s, SetEvent(s.entries, s.version + 1, t, w)), Some(NewEntry(s.entries, s.version + 1, t, w)))
  }

  /** A `set` whose clock moves from `t` to `t'` between the eviction and the write. */
  function SetTwice(s: Store, t: int, t': int, w: Write): (Store, Option<Entry>) {
    PutEntry(Evict(s, t), t', w)
  }

  /** A `set` whose clock stands still. */
  function SetEntry(s: Store, t: int, w: Write): (Store, Option<Entry>) {
    SetTwice(s, t, t, w)
  }

  datatype Batch = Batch(entries: JsMap<Entry>, version: nat, events: seq<Event>, failed: Option<nat>)

  /** The loop of `batchSet`: it stops at the first value that cannot be copied. */
  function Stage(entries: JsMap<Entry>, version: nat, t: int, ws: seq<Write>): Batch {
    if ws == [] then Batch(entries, version, [], None)
    else
      var b := Stage(entries, version, t, ws[..|ws| - 1]);
      var w := ws[|ws| - 1];
      if b.failed.Some? then b
      else if w.value.Unclonable? then b.(failed := Some(|ws| - 1))
      else
        Batch(b.entries.Put(w.key, NewEntry(b.entries, b.version + 1, t, w)), b.version + 1,
          b.events + [SetEvent(b.entries, b.version + 1, t, w)], None)
  }

  function Written(events: seq<Event>): seq<Entry>
    requires forall e :: e in events ==> e.entry.Some?
  {
    seq(|events|, k requires 0 <= k < |events| => assert events[k] in events; events[k].entry.value)
  }

  /** The failing index, or the entries written. */
  function BatchSet(s: Store, t: int, ws: seq<Write>): (Store, Result<seq<Entry>, nat>) {
    var base := Evict(s, t);
    var b := Stage(base.entries, base.version, t, ws);
    StagedEventsCarryEntries(base.entries, base.version, t, ws);
    if b.failed.Some? then (base, Err(b.failed.value))
    else (RecordAll(base.(entries := b.entries, version := b.version), b.events), Ok(Written(b.events)))
  }

  lemma {:induction false} StagedEventsCarryEntries(entries: JsMap<Entry>, version: nat, t: int, ws: seq<Write>)
    ensures forall e :: e in Stage(entries, version, t, ws).events ==> e.entry.Some?
  {
    if ws != [] {
      StagedEventsCarryEntries(entries, version, t, ws[..|ws| - 1]);
    }
  }

  function DeleteEntry(s: Store, t: int, key: string): (Store, bool) {
    var base := Evict(s, t);
    if !base.entries.Has(key) then (base, false)
    else (Commit(base, Event(base.version + 1, Delete, key, t, None, Some(base.entries.rows[key]))), true)
  }

  // ---------------------------------------------------------------------------------------------
  // Reads
  // ---------------------------------------------------------------------------------------------

  function GetEntry(s: Store, t: int, key: string): (Store, Option<Entry>) {
    var base := Evict(s, t);
    (base, base.entries.Get(key))
  }

  predicate Selected(e: Entry, keys: Option<set<string>>, tags: Option<set<string>>) {
    (keys.Some? ==> e.key in keys.value) && (tags.Some? ==> tags.value <= e.tags)
  }

  /** The selected entries, in the iteration order of the map. */
  function Select(m: JsMap<Entry>, ks: seq<string>, keys: Option<set<string>>, tags: Option<set<string>>): seq<Entry> {
    if ks == [] then []
    else
      var front := Select(m, ks[..|ks| - 1], keys, tags);
      var k := ks[|ks| - 1];
      if m.Has(k) && Selected(m.rows[k], keys, tags) then front + [m.rows[k]] else front
  }

  /** Places `e` after the entries at least as recent. */
  function Insert(sorted: seq<Entry>, e: Entry): seq<Entry> {
    if sorted == [] || sorted[|sorted| - 1].updatedAt >= e.updatedAt then sorted + [e]
    else Insert(sorted[..|sorted| - 1], e) + [sorted[|sorted| - 1]]
  }

  /** Stable sort, most recently updated first. */
  function SortByUpdate(es: seq<Entry>): seq<Entry> {
    if es == [] then [] else Insert(SortByUpdate(es[..|es| - 1]), es[|es| - 1])
  }

  function Query(s: Store, t: int, keys: Option<set<string>>, tags: Option<set<string>>): (Store, seq<Entry>) {
    var base := Evict(s, t);
    (base, SortByUpdate(Select(base.entries, base.entries.keys, keys, tags)))
  }

  function Above(events: seq<Event>, from: int): seq<Event> {
    if events == [] then []
    else
      var front := Above(events[..|events| - 1], from);
      if events[|events| - 1].version > from then front + [events[|events| - 1]] else front
  }

  function FirstOf(events: seq<Event>, limit: Option<int>): seq<Event> {
    if limit.None? || limit.value >= |events| then events
    else if limit.value <= 0 then []
    else events[..limit.value]
  }

  function EventsSince(s: Store, t: int, from: int, limit: Option<int>): (Store, seq<Event>) {
    var base := Evict(s, t);
    (base, FirstOf(Above(base.events, from), limit))
  }

  function Max(a: int, b: int): int { if a < b then b else a }

  function LastVersion(from: int, events: seq<Event>): int {
    if events == [] then from else Max(LastVersion(from, events[..|events| - 1]), events[|events| - 1].version)
  }

  /** The listener receives the retained events above `from` at once. */
  function Watch(s: Store, t: int, from: int): Store {
    var (base, backlog) := EventsSince(s, t, from, None);
    base.(watchers := base.watchers + [Watcher(from, LastVersion(from, backlog), backlog)])
  }

  function ClearHistory(s: Store): Store {
    s.(events := [])
  }
}
