/**
 The event side of the blackboard: every event is replayable, the retained history is a suffix of all
 events, and each watcher receives what it asked for exactly once.
 */
module BlackboardHistory {
  import opened Outcomes
  import opened JsMaps
  import opened BlackboardSpec
  import opened BlackboardProofs
  import Blackboard

  // ---------------------------------------------------------------------------------------------
  // Replaying
  // ---------------------------------------------------------------------------------------------

  type Rows = map<string, Entry>

  function Play(rows: Rows, event: Event): Rows {
    if event.entry.Some? then rows[event.key := event.entry.value] else rows - {event.key}
  }

  function Replay(rows: Rows, events: seq<Event>): Rows {
    if events == [] then rows else Play(Replay(rows, events[..|events| - 1]), events[|events| - 1])
  }

  lemma {:induction false} ReplayJoins(rows: Rows, a: seq<Event>, b: seq<Event>)
    ensures Replay(rows, a + b) == Replay(Replay(rows, a), b)
    decreases |b|
  {
    if b == [] {
      assert a + b == a;
    } else {
      assert (a + b)[..|a + b| - 1] == a + b[..|b| - 1];
      ReplayJoins(rows, a, b[..|b| - 1]);
    }
  }

  lemma {:induction false} AboveJoins(a: seq<Event>, b: seq<Event>, from: int)
    ensures Above(a + b, from) == Above(a, from) + Above(b, from)
    decreases |b|
  {
    if b == [] {
      assert a + b == a;
    } else {
      assert (a + b)[..|a + b| - 1] == a + b[..|b| - 1];
      AboveJoins(a, b[..|b| - 1], from);
    }
  }

  // ---------------------------------------------------------------------------------------------
  // Invariant
  // ---------------------------------------------------------------------------------------------

  predicate IsSuffix(events: seq<Event>, log: seq<Event>) {
    |events| <= |log| && events == log[|log| - |events|..]
  }

  /** Versions grow strictly and stay within 1 and the current one. */
  predicate Versioned(log: seq<Event>, version: nat) {
    && (forall i :: 0 <= i < |log| ==> 1 <= log[i].version <= version)
    && (forall i, j :: 0 <= i < j < |log| ==> log[i].version < log[j].version)
  }

  /** An event tells what stood at its key before it, and a set event carries the entry it wrote. */
  predicate Truthful(log: seq<Event>) {
    forall i :: 0 <= i < |log| ==>
      var rows := Replay(map[], log[..i]);
      && log[i].previous == (if log[i].key in rows then Some(rows[log[i].key]) else None)
      && (log[i].kind == Set <==> log[i].entry.Some?)
      && (log[i].kind == Set ==> log[i].entry.value.key == log[i].key && log[i].entry.value.version == log[i].version)
  }

  /** What a watcher has seen last is a version already out, or where it started. */
  predicate Following(w: Watcher, version: nat) {
    w.from <= w.lastDelivered && (w.lastDelivered == w.from || w.lastDelivered <= version)
  }

  ghost predicate Inv(s: Store) {
    && s.entries.Valid()
    && s.limit >= 1
    && IsSuffix(s.events, s.log)
    && Versioned(s.log, s.version)
    && Truthful(s.log)
    && Replay(map[], s.log) == s.entries.rows
    && forall k :: 0 <= k < |s.watchers| ==> Following(s.watchers[k], s.version)
  }

  /** The event is the next one: a fresh version, and the entry it replaces. */
  predicate Next(s: Store, event: Event) {
    && event.version == s.version + 1
    && event.previous == s.entries.Get(event.key)
    && (event.kind == Set <==> event.entry.Some?)
    && (event.kind == Set ==> event.entry.value.key == event.key && event.entry.value.version == event.version)
  }

  lemma SuffixGrows(events: seq<Event>, log: seq<Event>, event: Event, limit: nat)
    requires IsSuffix(events, log) && limit >= 1
    ensures IsSuffix(LastOf(events + [event], limit), log + [event])
    ensures |LastOf(events + [event], limit)| == if |events| + 1 > limit then limit else |events| + 1
  {
    var all := log + [event];
    assert events + [event] == all[|all| - |events| - 1..];
  }

  lemma TruthGrows(log: seq<Event>, event: Event)
    requires Truthful(log)
    requires var rows := Replay(map[], log);
             && event.previous == (if event.key in rows then Some(rows[event.key]) else None)
             && (event.kind == Set <==> event.entry.Some?)
             && (event.kind == Set ==> event.entry.value.key == event.key && event.entry.value.version == event.version)
    ensures Truthful(log + [event])
    ensures Replay(map[], log + [event]) == Play(Replay(map[], log), event)
  {
    hide Replay;
    var all := log + [event];
    assert all[..|log|] == log;
    forall i | 0 <= i < |log| ensures all[..i] == log[..i] && all[i] == log[i] {}
    ReplayJoins(map[], log, [event]);
    ReplayOne(Replay(map[], log), event);
  }

  lemma ReplayOne(rows: Rows, event: Event)
    ensures Replay(rows, [event]) == Play(rows, event)
  {
    assert [event][..0] == [];
  }

  lemma CommitKeepsInv(s: Store, event: Event)
    requires Inv(s) && Next(s, event)
    ensures Inv(Commit(s, event))
  {
    hide Replay, Truthful, LastOf;
    SuffixGrows(s.events, s.log, event, s.limit);
    TruthGrows(s.log, event);
  }

  /** Every event added to the log has a version of its own above those of before. */
  ghost predicate Newer(s: Store, s': Store) {
    && s.version <= s'.version
    && |s.log| <= |s'.log| && s'.log[..|s.log|] == s.log
    && forall i :: |s.log| <= i < |s'.log| ==> s'.log[i].version > s.version
  }

  lemma NewerTwice(a: Store, b: Store, c: Store)
    requires Newer(a, b) && Newer(b, c)
    ensures Newer(a, c)
  {
    assert c.log[..|a.log|] == b.log[..|a.log|];
    forall i | |a.log| <= i < |c.log| ensures c.log[i].version > a.version {
      if i < |b.log| {
        assert c.log[..|b.log|][i] == b.log[i];
      }
    }
  }

  /** Events since a step, and the watchers that were there received exactly those they had asked for. */
  ghost predicate Grown(s: Store, s': Store) {
    && s'.limit == s.limit
    && Newer(s, s')
    && |s.watchers| <= |s'.watchers|
    && forall k :: 0 <= k < |s.watchers| ==>
         && s'.watchers[k].from == s.watchers[k].from
         && s'.watchers[k].delivered == s.watchers[k].delivered + Above(s'.log[|s.log|..], s.watchers[k].from)
  }

  lemma GrownOnce(s: Store)
    ensures Grown(s, s)
  {
    assert s.log[|s.log|..] == [];
    forall k | 0 <= k < |s.watchers| ensures s.watchers[k].delivered + [] == s.watchers[k].delivered {}
  }

  lemma GrownTwice(a: Store, b: Store, c: Store)
    requires Grown(a, b) && Grown(b, c)
    ensures Grown(a, c)
  {
    hide Above;
    var x, y := b.log[|a.log|..], c.log[|b.log|..];
    NewerTwice(a, b, c);
    assert c.log[..|a.log|] == b.log[..|a.log|];
    assert c.log[|a.log|..] == x + y by {
      assert c.log == b.log + y;
      assert b.log == a.log + x;
    }
    forall k | 0 <= k < |a.watchers|
      ensures c.watchers[k].delivered == a.watchers[k].delivered + Above(c.log[|a.log|..], a.watchers[k].from)
    {
      var from := a.watchers[k].from;
      AboveJoins(x, y, from);
      assert a.watchers[k].delivered + (Above(x, from) + Above(y, from)) ==
        a.watchers[k].delivered + Above(x, from) + Above(y, from);
    }
  }

  lemma CommitGrows(s: Store, event: Event)
    requires Inv(s) && Next(s, event)
    ensures Grown(s, Commit(s, event))
  {
    hide Replay, Truthful, LastOf, Versioned;
    var s' := Commit(s, event);
    assert s'.log[|s.log|..] == [event];
    assert [event][..0] == [];
    forall k | 0 <= k < |s.watchers|
      ensures s'.watchers[k].delivered == s.watchers[k].delivered + Above([event], s.watchers[k].from)
    {
      assert Following(s.watchers[k], s.version);
    }
  }

  /** What every step keeps: `Inv`, and what it adds: `Grown`. */
  ghost predicate Advances(s: Store, s': Store) {
    Inv(s') && Grown(s, s')
  }

  lemma CommitAdvances(s: Store, event: Event)
    requires Inv(s) && Next(s, event)
    ensures Advances(s, Commit(s, event)) && Commit(s, event).version == |Commit(s, event).log| + (s.version - |s.log|)
  {
    CommitKeepsInv(s, event);
    CommitGrows(s, event);
  }

  /** Versions no event was emitted for. */
  function Gaps(s: Store): int {
    s.version - |s.log|
  }

  lemma AdvancesTwice(a: Store, b: Store, c: Store)
    requires Advances(a, b) && Advances(b, c)
    ensures Advances(a, c)
  {
    hide Inv, Grown;
    GrownTwice(a, b, c);
  }

  lemma {:induction false} EvictAdvances(s: Store, t: int, keys: seq<string>)
    requires Inv(s)
    ensures Advances(s, EvictKeys(s, t, keys)) && Gaps(EvictKeys(s, t, keys)) == Gaps(s)
  {
    hide Inv, Grown, Commit;
    if keys == [] {
      GrownOnce(s);
    } else {
      var mid, k := EvictKeys(s, t, keys[..|keys| - 1]), keys[|keys| - 1];
      EvictAdvances(s, t, keys[..|keys| - 1]);
      if mid.entries.Has(k) && Expired(mid.entries.rows[k], t) {
        CommitAdvances(mid, Event(mid.version + 1, Expire, k, t, None, Some(mid.entries.rows[k])));
        AdvancesTwice(s, mid, EvictKeys(s, t, keys));
      }
    }
  }

  /** A failed write moves the version and nothing else. */
  lemma PutAdvances(s: Store, t: int, w: Write)
    requires Inv(s)
    ensures Advances(s, PutEntry(s, t, w).0)
    ensures Gaps(PutEntry(s, t, w).0) == Gaps(s) + if w.value.Unclonable? then 1 else 0
  {
    hide Grown, Commit;
    if w.value.Unclonable? {
      hide Replay, Truthful;
      var s' := PutEntry(s, t, w).0;
      SameLogGrows(s, s');
    } else {
      CommitAdvances(s, SetEvent(s.entries, s.version + 1, t, w));
    }
  }

  lemma SameLogGrows(s: Store, s': Store)
    requires s'.limit == s.limit && s'.log == s.log && s.version <= s'.version && |s.watchers| <= |s'.watchers|
      && s'.watchers[..|s.watchers|] == s.watchers
    ensures Grown(s, s')
  {
    GrownOnce(s);
    forall k | 0 <= k < |s.watchers| ensures s'.watchers[k] == s.watchers[k] {
      assert s'.watchers[..|s.watchers|][k] == s.watchers[k];
    }
  }

  lemma {:induction false} SetsAdvance(s: Store, t: int, ws: seq<Write>)
    requires Inv(s) && AllClonable(ws)
    ensures Advances(s, Sets(s, t, ws)) && Gaps(Sets(s, t, ws)) == Gaps(s)
  {
    hide Inv, Grown, Evict, PutEntry;
    if ws == [] {
      GrownOnce(s);
    } else {
      var mid := Sets(s, t, ws[..|ws| - 1]);
      SetsAdvance(s, t, ws[..|ws| - 1]);
      EvictStepAdvances(mid, t);
      PutAdvances(Evict(mid, t), t, ws[|ws| - 1]);
      AdvancesTwice(mid, Evict(mid, t), Sets(s, t, ws));
      AdvancesTwice(s, mid, Sets(s, t, ws));
    }
  }

  lemma EvictStepAdvances(s: Store, t: int)
    requires Inv(s)
    ensures Advances(s, Evict(s, t)) && Gaps(Evict(s, t)) == Gaps(s)
  {
    EvictAdvances(s, t, s.entries.keys);
  }

  lemma {:induction false} AboveIsNew(events: seq<Event>, from: int, version: nat)
    requires forall i :: 0 <= i < |events| ==> events[i].version <= version
    ensures var last := LastVersion(from, Above(events, from)); from <= last && (last == from || last <= version)
    ensures forall e :: e in Above(events, from) ==> e in events && e.version > from
  {
    if events != [] {
      AboveIsNew(events[..|events| - 1], from, version);
      var front := Above(events[..|events| - 1], from);
      if events[|events| - 1].version > from {
        assert (front + [events[|events| - 1]])[..|front|] == front;
      }
    }
  }

  lemma WatchAdvances(s: Store, t: int, from: int)
    requires Inv(s)
    ensures Advances(s, Watch(s, t, from)) && Gaps(Watch(s, t, from)) == Gaps(s)
  {
    hide Evict, Replay, Truthful, Above, LastVersion;
    EvictStepAdvances(s, t);
    var base, s' := Evict(s, t), Watch(s, t, from);
    forall i | 0 <= i < |base.events| ensures base.events[i].version <= base.version {
      assert base.events[i] == base.log[|base.log| - |base.events| + i];
    }
    AboveIsNew(base.events, from, base.version);
    SameLogGrows(base, s');
    AdvancesTwice(s, base, s');
  }

  lemma ClearAdvances(s: Store)
    requires Inv(s)
    ensures Advances(s, ClearHistory(s)) && Gaps(ClearHistory(s)) == Gaps(s)
  {
    hide Replay, Truthful;
    SameLogGrows(s, ClearHistory(s));
    assert s.log[|s.log|..] == [];
  }

  lemma DeleteAdvances(s: Store, t: int, key: string)
    requires Inv(s)
    ensures Advances(s, DeleteEntry(s, t, key).0) && Gaps(DeleteEntry(s, t, key).0) == Gaps(s)
  {
    hide Inv, Grown, Evict, Commit;
    EvictStepAdvances(s, t);
    var base := Evict(s, t);
    if base.entries.Has(key) {
      CommitAdvances(base, Event(base.version + 1, Delete, key, t, None, Some(base.entries.rows[key])));
      AdvancesTwice(s, base, DeleteEntry(s, t, key).0);
    }
  }

  lemma BatchAdvances(s: Store, t: int, ws: seq<Write>)
    requires Inv(s)
    ensures Advances(s, BatchSet(s, t, ws).0) && Gaps(BatchSet(s, t, ws).0) == Gaps(s)
  {
    hide Grown, Evict, Replay, Truthful, BatchSet, Sets;
    assert s.entries.Valid();
    BatchIsAtomic(s, t, ws);
    EvictStepAdvances(s, t);
    if AllClonable(ws) {
      SetsAdvance(Evict(s, t), t, ws);
      AdvancesTwice(s, Evict(s, t), Sets(Evict(s, t), t, ws));
    }
  }

  /** The write that a `set` fails on. */
  predicate FailedSet(op: Op) {
    op.OpSet? && op.w.value.Unclonable?
  }

  lemma StepAdvances(s: Store, t: int, op: Op)
    requires Inv(s)
    ensures Advances(s, Step(s, t, op).0)
    ensures Gaps(Step(s, t, op).0) == Gaps(s) + if FailedSet(op) then 1 else 0
  {
    hide Inv, Grown, Evict, PutEntry, BatchSet, DeleteEntry, Watch, ClearHistory;
    EvictStepAdvances(s, t);
    match op
    case OpSet(w) =>
      PutAdvances(Evict(s, t), t, w);
      AdvancesTwice(s, Evict(s, t), PutEntry(Evict(s, t), t, w).0);
    case OpBatch(ws) => BatchAdvances(s, t, ws);
    case OpDelete(key) => DeleteAdvances(s, t, key);
    case OpWatch(from) => WatchAdvances(s, t, from);
    case OpClear => ClearAdvances(s);
    case OpGet(_) =>
    case OpQuery(_, _) =>
    case OpEvict =>
    case OpSince(_, _) =>
  }

  function FailedSets(ops: seq<Timed>): nat {
    if ops == [] then 0 else (if FailedSet(ops[0].op) then 1 else 0) + FailedSets(ops[1..])
  }

  /**
   Over any run, `Inv` holds: the retained history is a suffix of all events, versions grow strictly, every
   event is truthful and replaying all events gives the entries. Every watcher received, in order, each later
   event above its start. The version exceeds the number of events by the number of failed sets.
   */
  lemma {:induction false} RunAdvances(s: Store, ops: seq<Timed>)
    requires Inv(s)
    ensures Advances(s, Run(s, ops)) && Gaps(Run(s, ops)) == Gaps(s) + FailedSets(ops)
    decreases |ops|
  {
    hide Inv, Grown, Step;
    if ops == [] {
      GrownOnce(s);
    } else {
      var mid := Step(s, ops[0].at, ops[0].op).0;
      StepAdvances(s, ops[0].at, ops[0].op);
      RunAdvances(mid, ops[1..]);
      AdvancesTwice(s, mid, Run(s, ops));
    }
  }

  lemma NewStoreIsInv(limit: nat)
    requires limit >= 1
    ensures Inv(NewStore(limit)) && Gaps(NewStore(limit)) == 0
  {
  }

  // ---------------------------------------------------------------------------------------------
  // Consequences
  // ---------------------------------------------------------------------------------------------

  /** With as many events as versions, the event at `i` has version `i + 1`. */
  lemma {:induction false} GaplessVersions(log: seq<Event>, version: nat, i: nat)
    requires Versioned(log, version) && i < |log|
    ensures i + 1 <= log[i].version <= version - (|log| - 1 - i)
  {
    VersionsFromBelow(log, version, i);
    VersionsFromAbove(log, version, i);
  }

  lemma {:induction false} VersionsFromBelow(log: seq<Event>, version: nat, i: nat)
    requires Versioned(log, version) && i < |log|
    ensures i + 1 <= log[i].version
  {
    if i > 0 {
      VersionsFromBelow(log, version, i - 1);
    }
  }

  lemma {:induction false} VersionsFromAbove(log: seq<Event>, version: nat, i: nat)
    requires Versioned(log, version) && i < |log|
    ensures log[i].version <= version - (|log| - 1 - i)
    decreases |log| - i
  {
    if i < |log| - 1 {
      VersionsFromAbove(log, version, i + 1);
    }
  }

  /** The versions emitted are 1, 2, ... up to the current one exactly when no `set` of the run failed to copy. */
  lemma EmittedIsContiguousIff(limit: nat, ops: seq<Timed>)
    requires limit >= 1
    ensures var s := Run(NewStore(limit), ops);
            FailedSets(ops) == 0 <==>
              |s.log| == s.version && forall i :: 0 <= i < |s.log| ==> s.log[i].version == i + 1
  {
    hide Run, Grown, Truthful, Replay;
    NewStoreIsInv(limit);
    RunAdvances(NewStore(limit), ops);
    var s := Run(NewStore(limit), ops);
    if FailedSets(ops) == 0 {
      forall i | 0 <= i < |s.log| ensures s.log[i].version == i + 1 {
        GaplessVersions(s.log, s.version, i);
      }
    }
  }

  /** The retained versions follow one another, up to the current one. */
  predicate Contiguous(s: Store) {
    forall k :: 0 <= k < |s.events| ==> s.events[k].version == s.version - |s.events| + 1 + k
  }

  /** How many operations of the run there are up to and with its last failed `set`; none if none failed. */
  function UpToLastFailure(ops: seq<Timed>): (n: nat)
    ensures n <= |ops|
    ensures n > 0 ==> FailedSet(ops[n - 1].op)
    ensures forall k :: n <= k < |ops| ==> !FailedSet(ops[k].op)
  {
    if ops == [] then 0
    else if FailedSet(ops[|ops| - 1].op) then |ops|
    else UpToLastFailure(ops[..|ops| - 1])
  }

  /** How many events have gone out since the last failed `set`, or at all if none failed. */
  function EmittedSinceFailure(limit: nat, ops: seq<Timed>): int {
    |Run(NewStore(limit), ops).log| - |Run(NewStore(limit), ops[..UpToLastFailure(ops)]).log|
  }

  lemma {:induction false} RunJoins(s: Store, a: seq<Timed>, b: seq<Timed>)
    ensures Run(s, a + b) == Run(Run(s, a), b)
    decreases |a|
  {
    hide Step;
    if a == [] {
      assert a + b == b;
    } else {
      assert (a + b)[1..] == a[1..] + b;
      RunJoins(Step(s, a[0].at, a[0].op).0, a[1..], b);
    }
  }

  lemma {:induction false} NoFailedSets(ops: seq<Timed>)
    requires forall k :: 0 <= k < |ops| ==> !FailedSet(ops[k].op)
    ensures FailedSets(ops) == 0
  {
    if ops != [] {
      NoFailedSets(ops[1..]);
    }
  }

  /** No event carries the current version. */
  ghost predicate Skipped(s: Store) {
    forall i :: 0 <= i < |s.log| ==> s.log[i].version < s.version
  }

  /** At the start and right after a failed `set` the current version is one that no event carries. */
  lemma FailureIsSkipped(limit: nat, ops: seq<Timed>)
    requires limit >= 1 && (ops != [] ==> FailedSet(ops[|ops| - 1].op))
    ensures Inv(Run(NewStore(limit), ops)) && Skipped(Run(NewStore(limit), ops))
  {
    hide Inv, Grown, Evict;
    NewStoreIsInv(limit);
    RunAdvances(NewStore(limit), ops);
    if ops != [] {
      var front, last := ops[..|ops| - 1], ops[|ops| - 1];
      var s := Run(NewStore(limit), front);
      RunAdvances(NewStore(limit), front);
      RunJoins(NewStore(limit), front, [last]);
      assert front + [last] == ops;
      EvictStepAdvances(s, last.at);
      VersionsAreOut(Evict(s, last.at));
      assert Run(s, [last]) == Step(s, last.at, last.op).0 by { assert [last][1..] == []; }
    }
  }

  lemma VersionsAreOut(s: Store)
    requires Inv(s)
    ensures forall i :: 0 <= i < |s.log| ==> s.log[i].version <= s.version
  {
    hide Replay, Truthful;
  }

  /** With a version skipped at `before` and none since, the history has no gap exactly if it starts after it. */
  lemma ContiguousSince(before: Store, s: Store)
    requires Inv(s) && Newer(before, s) && Skipped(before) && Gaps(s) == Gaps(before)
    ensures Contiguous(s) <==> |s.events| <= |s.log| - |before.log|
  {
    hide Replay, Truthful;
    var emitted := |s.log| - |before.log|;
    forall k | 0 <= k < |s.events| ensures s.events[k] == s.log[|s.log| - |s.events| + k] {}
    if |s.events| <= emitted {
      forall k | 0 <= k < |s.events| ensures s.events[k].version == s.version - |s.events| + 1 + k {
        NewerFromBelow(before, s, |s.log| - |s.events| + k);
        VersionsFromAbove(s.log, s.version, |s.log| - |s.events| + k);
      }
    } else {
      var k, i := |s.events| - emitted - 1, |before.log| - 1;
      assert s.log[i] == s.log[..|before.log|][i] == before.log[i];
      assert s.events[k] == s.log[i] && s.events[k].version < before.version;
    }
  }

  lemma {:induction false} NewerFromBelow(before: Store, s: Store, i: nat)
    requires Newer(before, s) && Versioned(s.log, s.version) && |before.log| <= i < |s.log|
    ensures s.log[i].version >= before.version + 1 + (i - |before.log|)
  {
    if i > |before.log| {
      NewerFromBelow(before, s, i - 1);
    }
  }

  /**
   The retained history runs without a gap up to the current version exactly when no more events are retained than
   have gone out since the last failed `set` of the run.
   */
  lemma HistoryIsContiguousIff(limit: nat, ops: seq<Timed>)
    requires limit >= 1
    ensures var s := Run(NewStore(limit), ops);
            Contiguous(s) <==> |s.events| <= EmittedSinceFailure(limit, ops)
  {
    hide Inv, Contiguous, Skipped, Run;
    var n := UpToLastFailure(ops);
    var before, s := Run(NewStore(limit), ops[..n]), Run(NewStore(limit), ops);
    FailureIsSkipped(limit, ops[..n]);
    assert ops[..n] + ops[n..] == ops;
    RunJoins(NewStore(limit), ops[..n], ops[n..]);
    RunAdvances(before, ops[n..]);
    NoFailedSets(ops[n..]);
    ContiguousSince(before, s);
  }

  /**
   While the history is not cleared, a gap leaves it once as many events as it can hold have gone out since the last
   failed `set`; until then it shows, unless nothing had gone out before that `set`.
   */
  lemma GapLeavesHistoryIff(limit: nat, ops: seq<Timed>)
    requires limit >= 1 && forall k :: 0 <= k < |ops| ==> !ops[k].op.OpClear?
    ensures var s := Run(NewStore(limit), ops);
            Contiguous(s) <==> EmittedSinceFailure(limit, ops) >= limit || EmittedSinceFailure(limit, ops) == |s.log|
  {
    hide Inv, Contiguous, Run;
    NewStoreIsInv(limit);
    HistoryIsContiguousIff(limit, ops);
    RunAdvances(NewStore(limit), ops);
    RetentionIsFull(NewStore(limit), ops);
  }

  /** A write of text under the key `k`, and one that cannot be copied. */
  function Good(text: string): Op {
    OpSet(Write("k", Data(text), {}, None))
  }

  const BAD := OpSet(Write("k", Unclonable, {}, None))

  predicate Everlasting(m: JsMap<Entry>) {
    forall k :: k in m.rows ==> m.rows[k].expiresAt.None?
  }

  lemma {:induction false} NothingToEvict(s: Store, t: int, keys: seq<string>)
    requires Everlasting(s.entries)
    ensures EvictKeys(s, t, keys) == s
  {
    if keys != [] {
      NothingToEvict(s, t, keys[..|keys| - 1]);
    }
  }

  lemma GoodStep(s: Store, t: int, text: string)
    requires Everlasting(s.entries) && |s.events| < s.limit
    ensures var s' := Step(s, t, Good(text)).0;
            && Everlasting(s'.entries) && s'.version == s.version + 1 && s'.limit == s.limit
            && s'.events[..|s'.events| - 1] == s.events && |s'.events| == |s.events| + 1
            && s'.events[|s.events|].version == s'.version
  {
    NothingToEvict(s, t, s.entries.keys);
  }

  lemma BadStep(s: Store, t: int)
    requires Everlasting(s.entries)
    ensures Step(s, t, BAD).0 == s.(version := s.version + 1)
  {
    NothingToEvict(s, t, s.entries.keys);
  }

  /** A failed `set` after a good one: the next event has version 3, and a history of two events or more skips 2. */
  lemma FailedSetLeavesGap(limit: nat, t: int, text: string)
    requires limit >= 2
    ensures var s := Run(NewStore(limit), [Timed(t, Good(text)), Timed(t, BAD)]);
            && |s.events| == 1 && s.events[0].version == 1 && s.version == 2 && !Contiguous(s)
    ensures var s := Run(NewStore(limit), [Timed(t, Good(text)), Timed(t, BAD), Timed(t, Good(text))]);
            && |s.events| == 2 && s.events[0].version == 1 && s.events[1].version == 3 && !Contiguous(s)
  {
    hide Step;
    var good, bad := Timed(t, Good(text)), Timed(t, BAD);
    var s0 := NewStore(limit);
    GoodStep(s0, t, text);
    var s1 := Step(s0, t, Good(text)).0;
    BadStep(s1, t);
    var s2 := Step(s1, t, BAD).0;
    GoodStep(s2, t, text);
    assert s2.events[0].version == 1;
    assert s2.events == s1.events;
    assert [good, bad][1..] == [bad] && [bad][1..] == [];
    assert [good, bad, good][1..] == [bad, good] && [bad, good][1..] == [good] && [good][1..] == [];
    assert Run(s1, [bad]) == Run(s2, []) == s2;
    assert Run(s0, [good, bad]) == Run(s1, [bad]);
    var s3 := Step(s2, t, Good(text)).0;
    assert Run(s2, [good]) == Run(s3, []) == s3;
    assert Run(s1, [bad, good]) == Run(s2, [good]);
    assert Run(s0, [good, bad, good]) == Run(s1, [bad, good]);
    assert s3.events[..1] == s2.events;
    assert s3.events[0] == s3.events[..1][0];
    assert !Contiguous(s2) && !Contiguous(s3);
  }

  /** How much is retained: the limit, or everything while that is less, as long as the history is not cleared. */
  lemma {:induction false} RetentionIsFull(s: Store, ops: seq<Timed>)
    requires Inv(s) && Retained(s) && forall k :: 0 <= k < |ops| ==> !ops[k].op.OpClear?
    ensures Retained(Run(s, ops))
    decreases |ops|
  {
    hide Inv, Step, Retained;
    if ops != [] {
      StepAdvances(s, ops[0].at, ops[0].op);
      StepRetains(s, ops[0].at, ops[0].op);
      RetentionIsFull(Step(s, ops[0].at, ops[0].op).0, ops[1..]);
    }
  }

  predicate Retained(s: Store) {
    |s.events| == if |s.log| < s.limit then |s.log| else s.limit
  }

  lemma RecordRetains(s: Store, event: Event)
    requires Retained(s)
    ensures Retained(Record(s, event)) && Retained(Commit(s, event))
  {
  }

  lemma {:induction false} EvictRetains(s: Store, t: int, keys: seq<string>)
    requires Retained(s)
    ensures Retained(EvictKeys(s, t, keys))
  {
    hide Retained, Commit;
    if keys != [] {
      var mid, k := EvictKeys(s, t, keys[..|keys| - 1]), keys[|keys| - 1];
      EvictRetains(s, t, keys[..|keys| - 1]);
      if mid.entries.Has(k) {
        RecordRetains(mid, Event(mid.version + 1, Expire, k, t, None, Some(mid.entries.rows[k])));
      }
    }
  }

  lemma {:induction false} RecordAllRetains(s: Store, events: seq<Event>)
    requires Retained(s)
    ensures Retained(RecordAll(s, events))
  {
    hide Retained, Record;
    if events != [] {
      RecordAllRetains(s, events[..|events| - 1]);
      RecordRetains(RecordAll(s, events[..|events| - 1]), events[|events| - 1]);
    }
  }

  lemma StepRetains(s: Store, t: int, op: Op)
    requires Retained(s) && !op.OpClear?
    ensures Retained(Step(s, t, op).0)
  {
    hide Commit, EvictKeys;
    EvictRetains(s, t, s.entries.keys);
    var base := Evict(s, t);
    match op
    case OpSet(w) =>
      if w.value.Data? {
        RecordRetains(base, SetEvent(base.entries, base.version + 1, t, w));
      }
    case OpBatch(ws) =>
      var b := Stage(base.entries, base.version, t, ws);
      RecordAllRetains(base.(entries := b.entries, version := b.version), b.events);
    case OpDelete(key) =>
      if base.entries.Has(key) {
        RecordRetains(base, Event(base.version + 1, Delete, key, t, None, Some(base.entries.rows[key])));
      }
    case OpGet(_) =>
    case OpQuery(_, _) =>
    case OpEvict =>
    case OpSince(_, _) =>
    case OpWatch(_) =>
  }

  /** The version after the first `n` events. */
  function VersionAfter(log: seq<Event>, n: nat): int
    requires n <= |log|
  {
    if n == 0 then 0 else log[n - 1].version
  }

  lemma {:induction false} AboveIsTail(events: seq<Event>, from: int, n: nat)
    requires n <= |events|
    requires forall i :: 0 <= i < n ==> events[i].version <= from
    requires forall i :: n <= i < |events| ==> events[i].version > from
    ensures Above(events, from) == events[n..]
    decreases |events|
  {
    if events != [] {
      var front := events[..|events| - 1];
      if n == |events| {
        AboveIsTail(front, from, n - 1);
      } else {
        AboveIsTail(front, from, n);
        assert front[n..] + [events[|events| - 1]] == events[n..];
      }
    }
  }

  lemma TailAboveVersion(events: seq<Event>, log: seq<Event>, version: nat, n: nat)
    requires IsSuffix(events, log) && Versioned(log, version) && |log| - |events| <= n <= |log|
    ensures Above(events, VersionAfter(log, n)) == log[n..]
  {
    hide Above;
    var from := VersionAfter(log, n);
    var dropped := |log| - |events|;
    forall i | 0 <= i < |events|
      ensures if i < n - dropped then events[i].version <= from else events[i].version > from {
      assert events[i] == log[dropped + i];
    }
    AboveIsTail(events, from, n - dropped);
    assert events[n - dropped..] == log[n..];
  }

  /**
   Catching up: for any point still covered by the retained history, the events since its version are
   exactly those emitted after it, and replaying them over the entries of that point gives the current ones.
   */
  lemma CatchingUpWorks(s: Store, t: int, n: nat)
    requires Inv(s)
    requires var base := Evict(s, t); |base.log| - |base.events| <= n <= |base.log|
    ensures var base := Evict(s, t);
            var since := EventsSince(s, t, VersionAfter(base.log, n), None).1;
            since == base.log[n..] && Replay(Replay(map[], base.log[..n]), since) == base.entries.rows
  {
    hide Evict, Replay, Above, Truthful, Grown, Following;
    EvictStepAdvances(s, t);
    var base := Evict(s, t);
    TailAboveVersion(base.events, base.log, base.version, n);
    ReplayJoins(map[], base.log[..n], base.log[n..]);
    assert base.log[..n] + base.log[n..] == base.log;
  }

  /** Delivered versions grow strictly, so nothing is delivered twice. */
  predicate InOrder(events: seq<Event>) {
    forall i, j :: 0 <= i < j < |events| ==> events[i].version < events[j].version
  }

  lemma {:induction false} AboveInOrder(events: seq<Event>, from: int)
    requires InOrder(events)
    ensures InOrder(Above(events, from))
    ensures forall e :: e in Above(events, from) <==> e in events && e.version > from
  {
    if events != [] {
      var front, last := events[..|events| - 1], events[|events| - 1];
      AboveInOrder(front, from);
      assert events == front + [last];
    }
  }

  /**
   A watcher receives the retained events above its start when it subscribes, then, over any further run,
   every later event above its start, each exactly once and in version order.
   */
  lemma WatcherMissesNothing(s: Store, t: int, from: int, ops: seq<Timed>)
    requires Inv(s)
    ensures var base, start, end := Evict(s, t), Watch(s, t, from), Run(Watch(s, t, from), ops);
            && |end.watchers| > |s.watchers|
            && start.log == base.log
            && |start.log| <= |end.log|
            && end.watchers[|s.watchers|].delivered == Above(base.events, from) + Above(end.log[|start.log|..], from)
            && end.watchers[|s.watchers|].delivered == Above(base.events + end.log[|start.log|..], from)
            && InOrder(end.watchers[|s.watchers|].delivered)
  {
    hide Evict, Run, Replay, Truthful, Above, LastVersion;
    EvictStepAdvances(s, t);
    WatchAdvances(s, t, from);
    EvictKeepsWatcherCount(s, t);
    var base, start, end := Evict(s, t), Watch(s, t, from), Run(Watch(s, t, from), ops);
    RunAdvances(start, ops);
    var later := end.log[|start.log|..];
    AboveJoins(base.events, later, from);
    var seen := base.events + later;
    assert seen == end.log[|base.log| - |base.events|..] by {
      assert end.log == base.log + later;
    }
    AboveInOrder(seen, from);
  }

  lemma EvictKeepsWatcherCount(s: Store, t: int)
    ensures |Evict(s, t).watchers| == |s.watchers|
  {
    EvictKeysKeepWatcherCount(s, t, s.entries.keys);
  }

  lemma {:induction false} EvictKeysKeepWatcherCount(s: Store, t: int, keys: seq<string>)
    ensures |EvictKeys(s, t, keys).watchers| == |s.watchers|
  {
    if keys != [] {
      EvictKeysKeepWatcherCount(s, t, keys[..|keys| - 1]);
    }
  }

  // ---------------------------------------------------------------------------------------------
  // Queries
  // ---------------------------------------------------------------------------------------------

  predicate SortedByUpdate(es: seq<Entry>) {
    forall i, j :: 0 <= i < j < |es| ==> es[i].updatedAt >= es[j].updatedAt
  }

  function WithUpdate(es: seq<Entry>, at: int): seq<Entry> {
    if es == [] then []
    else
      var front := WithUpdate(es[..|es| - 1], at);
      if es[|es| - 1].updatedAt == at then front + [es[|es| - 1]] else front
  }

  lemma {:induction false} InsertAdds(es: seq<Entry>, e: Entry)
    ensures multiset(Insert(es, e)) == multiset(es) + multiset{e}
  {
    if es != [] && es[|es| - 1].updatedAt < e.updatedAt {
      InsertAdds(es[..|es| - 1], e);
      assert es == es[..|es| - 1] + [es[|es| - 1]];
    }
  }

  lemma {:induction false} InsertSorts(es: seq<Entry>, e: Entry)
    requires SortedByUpdate(es)
    ensures SortedByUpdate(Insert(es, e)) && multiset(Insert(es, e)) == multiset(es) + multiset{e}
  {
    InsertAdds(es, e);
    if es != [] && es[|es| - 1].updatedAt < e.updatedAt {
      var front, last := es[..|es| - 1], es[|es| - 1];
      var r := Insert(front, e);
      InsertSorts(front, e);
      forall i | 0 <= i < |r| ensures r[i].updatedAt >= last.updatedAt {
        assert r[i] in multiset(r);
        assert r[i] == e || r[i] in multiset(front);
      }
    }
  }

  /** Entries equally recent keep their order, the new one last. */
  lemma {:induction false} InsertIsStable(es: seq<Entry>, e: Entry, at: int)
    requires SortedByUpdate(es)
    ensures WithUpdate(Insert(es, e), at) == if e.updatedAt == at then WithUpdate(es, at) + [e] else WithUpdate(es, at)
  {
    var r := Insert(es, e);
    if es == [] || es[|es| - 1].updatedAt >= e.updatedAt {
      assert r[..|es|] == es;
    } else {
      InsertIsStable(es[..|es| - 1], e, at);
      assert r[..|r| - 1] == Insert(es[..|es| - 1], e);
    }
  }

  /** A query lists exactly the selected entries, most recent first, ties in the order of the map. */
  lemma {:induction false} QueryIsStableSort(es: seq<Entry>, at: int)
    ensures SortedByUpdate(SortByUpdate(es)) && multiset(SortByUpdate(es)) == multiset(es)
    ensures WithUpdate(SortByUpdate(es), at) == WithUpdate(es, at)
  {
    if es != [] {
      var front, last := es[..|es| - 1], es[|es| - 1];
      assert es == front + [last];
      QueryIsStableSort(front, at);
      InsertSorts(SortByUpdate(front), last);
      InsertIsStable(SortByUpdate(front), last, at);
    }
  }
}
