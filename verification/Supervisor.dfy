/**
 The one-for-one supervisor (src/children/supervisionStrategy.ts, lines 124-344): exponential backoff between
 restarts and a quota of restarts per minute. The circuit breaker only says whether an attempt is allowed.
 */
module Supervision {
  import opened Outcomes
  import opened RealFacts

  const WINDOW := 60000

  datatype Options = Options(minBackoffMs: nat, maxBackoffMs: nat, backoffFactor: real, quota: Option<nat>)

  predicate OptionsValid(o: Options) {
    o.minBackoffMs <= o.maxBackoffMs && o.backoffFactor >= 1.0
  }

  datatype Child = Child(attempts: nat, nextDelayMs: nat, nextAllowedAt: int, restartTimestamps: seq<int>)

  /** A wait that is not a number is `None`. */
  datatype Ticket =
    Ticket(attempt: nat, at: int, delayMs: Option<nat>, backoffWaitMs: nat, quotaWaitMs: Option<nat>)

  datatype AcquireError = CircuitOpen

  datatype OptionError = BadMinimum | BadMaximum | BadFactor

  // ---------------------------------------------------------------------------------------------
  // Specification
  // ---------------------------------------------------------------------------------------------

  function NewChild(o: Options): Child {
    Child(0, o.minBackoffMs, 0, [])
  }

  /** `Math.round`: halves go up. */
  function Round(x: real): int {
    (x + 0.5).Floor
  }

  /** A delay multiplied by the factor. */
  function Grow(delay: int, factor: real): int {
    Round(delay as real * factor)
  }

  function Positive(x: int): nat {
    if x < 0 then 0 else x
  }

  /** The delay after one more failure. */
  function NextDelay(o: Options, attempts: nat, delay: nat): (next: nat) {
    var grown := Grow(delay, o.backoffFactor);
    var raw := if attempts == 1 then o.minBackoffMs else if grown > o.maxBackoffMs then o.maxBackoffMs else grown;
    if raw < o.minBackoffMs then o.minBackoffMs else raw
  }

  function Bumped(o: Options, c: Child, at: int): Child {
    var delay := NextDelay(o, c.attempts + 1, c.nextDelayMs);
    Child(c.attempts + 1, delay, at + delay, c.restartTimestamps)
  }

  function Reset(o: Options, c: Child): Child {
    Child(0, o.minBackoffMs, 0, c.restartTimestamps)
  }

  /** Restarts older than a minute are dropped from the front. */
  function Pruned(stamps: seq<int>, now: int): seq<int> {
    if stamps != [] && stamps[0] < now - WINDOW then Pruned(stamps[1..], now) else stamps
  }

  /**
   The wait that the quota asks for, once the history is pruned. A quota of zero, which is what a quota below one
   becomes, is compared with an oldest restart that need not exist: the wait is then not a number.
   */
  function QuotaWait(o: Options, stamps: seq<int>, now: int): Option<nat> {
    if o.quota.None? || |stamps| < o.quota.value then Some(0)
    else if stamps == [] then None
    else Some(Positive(stamps[0] + WINDOW - now))
  }

  function BackoffWait(c: Child, now: int): nat {
    Positive(c.nextAllowedAt - now)
  }

  function Longer(a: nat, b: nat): nat {
    if a < b then b else a
  }

  /** Stamps as the quota sees them: without a quota they are not pruned yet. */
  function Seen(o: Options, c: Child, now: int): seq<int> {
    if o.quota.None? then c.restartTimestamps else Pruned(c.restartTimestamps, now)
  }

  function Wait(o: Options, c: Child, now: int): Option<nat> {
    match QuotaWait(o, Seen(o, c, now), now)
    case None => None
    case Some(quotaWait) => Some(Longer(BackoffWait(c, now), quotaWait))
  }

  /**
   An attempt asked for at `now`. The clock is read again after the sleep, `late` milliseconds past its end, or past
   `now` when there is none: a wait that is not positive or not a number takes no sleep.
   */
  function StartedAt(o: Options, c: Child, now: int, late: nat): int {
    now + Wait(o, c, now).GetOr(0) + late
  }

  function Started(o: Options, c: Child, now: int, late: nat): Child {
    var at := StartedAt(o, c, now, late);
    c.(restartTimestamps := Pruned(Seen(o, c, now), at) + [at])
  }

  // ---------------------------------------------------------------------------------------------
  // The supervisor
  // ---------------------------------------------------------------------------------------------

  /**
   The constructor, which throws on options that make no sense. Fractions of milliseconds and of a quota are cut off;
   a quota that is not positive means none.
   */
  method CreateSupervisor(
    minBackoffMs: real, maxBackoffMs: real, backoffFactor: Option<real>, maxRestartsPerMinute: Option<real>)
    returns (r: Result<OneForOneSupervisor, OptionError>)
    ensures r.Ok? <==> 0.0 <= minBackoffMs <= maxBackoffMs && backoffFactor.GetOr(2.0) >= 1.0
    ensures r.Ok? ==> fresh(r.value) && r.value.children == map[] && OptionsValid(r.value.options)
    ensures r.Ok? ==>
              && r.value.options.minBackoffMs == minBackoffMs.Floor
              && r.value.options.maxBackoffMs == maxBackoffMs.Floor
              && r.value.options.backoffFactor == backoffFactor.GetOr(2.0)
    ensures r.Ok? ==> (r.value.options.quota.Some? <==> maxRestartsPerMinute.GetOr(0.0) > 0.0)
    ensures r.Ok? && maxRestartsPerMinute.GetOr(0.0) > 0.0 ==>
              r.value.options.quota.value == maxRestartsPerMinute.value.Floor
  {
    if minBackoffMs < 0.0 {
      return Err(BadMinimum);
    }
    if maxBackoffMs < minBackoffMs {
      return Err(BadMaximum);
    }
    var factor := backoffFactor.GetOr(2.0);
    if factor < 1.0 {
      return Err(BadFactor);
    }
    var quota: Option<nat> := None;
    if maxRestartsPerMinute.Some? && maxRestartsPerMinute.value > 0.0 {
      quota := Some(maxRestartsPerMinute.value.Floor as nat);
    }
    var supervisor := new OneForOneSupervisor(
      Options(minBackoffMs.Floor as nat, maxBackoffMs.Floor as nat, factor, quota));
    return Ok(supervisor);
  }

  class OneForOneSupervisor {
    const options: Options
    var children: map<string, Child>

    constructor (options: Options)
      requires OptionsValid(options)
      ensures this.options == options && children == map[]
    {
      this.options, children := options, map[];
    }

    function ChildOf(key: string): Child
      reads this
    {
      if key in children then children[key] else NewChild(options)
    }

    method LookupState(key: string)
      modifies this
      ensures children == old(children)[key := old(ChildOf(key))]
    {
      if key !in children {
        children := children[key := NewChild(options)];
      }
    }

    method Acquire(key: string, allowed: bool, now: int, late: nat) returns (r: Result<Ticket, AcquireError>)
      modifies this
      ensures r.Ok? <==> allowed
      ensures !allowed ==> children == old(children)[key := old(ChildOf(key))]
      ensures allowed ==> children == old(children)[key := Started(options, old(ChildOf(key)), now, late)]
      ensures allowed ==>
                var c := old(ChildOf(key));
                r.value == Ticket(c.attempts + 1, StartedAt(options, c, now, late), Wait(options, c, now),
                                  BackoffWait(c, now), QuotaWait(options, Seen(options, c, now), now))
    {
      LookupState(key);
      if !allowed {
        return Err(CircuitOpen);
      }
      var backoffWait := Positive(children[key].nextAllowedAt - now);
      var quotaWait := ComputeQuotaWait(key, now);
      var waitMs := if quotaWait.Some? then Some(Longer(backoffWait, quotaWait.value)) else None;
      var startedAt := now + late;
      if waitMs.Some? && waitMs.value > 0 {
        startedAt := now + waitMs.value + late;
      }
      RecordRestart(key, startedAt);
      return Ok(Ticket(children[key].attempts + 1, startedAt, waitMs, backoffWait, quotaWait));
    }

    /** A failed ticket; the same for a crash reported from outside, at its own time. */
    method Fail(key: string, at: int)
      modifies this
      ensures children == old(children)[key := Bumped(options, old(ChildOf(key)), at)]
    {
      LookupState(key);
      BumpBackoff(key, at);
    }

    /** A successful ticket, or a clean shutdown. */
    method Succeed(key: string)
      modifies this
      ensures children == old(children)[key := Reset(options, old(ChildOf(key)))]
    {
      LookupState(key);
      var state := children[key];
      children := children[key := state.(attempts := 0, nextDelayMs := options.minBackoffMs, nextAllowedAt := 0)];
    }

    method Clear(key: string)
      modifies this
      ensures children == old(children) - {key}
    {
      children := children - {key};
    }

    method BumpBackoff(key: string, at: int)
      requires key in children
      modifies this
      ensures children == old(children)[key := Bumped(options, old(children)[key], at)]
    {
      var state := children[key];
      state := state.(attempts := state.attempts + 1);
      var nextDelay: int;
      if state.attempts == 1 {
        nextDelay := options.minBackoffMs;
      } else {
        nextDelay := Grow(state.nextDelayMs, options.backoffFactor);
        if nextDelay > options.maxBackoffMs {
          nextDelay := options.maxBackoffMs;
        }
      }
      state := state.(nextDelayMs := if nextDelay < options.minBackoffMs then options.minBackoffMs else nextDelay);
      state := state.(nextAllowedAt := at + state.nextDelayMs);
      children := children[key := state];
    }

    method RecordRestart(key: string, at: int)
      requires key in children
      modifies this
      ensures var c := old(children)[key];
              children == old(children)[key := c.(restartTimestamps := Pruned(c.restartTimestamps, at) + [at])]
    {
      PruneRestartHistory(key, at);
      var state := children[key];
      children := children[key := state.(restartTimestamps := state.restartTimestamps + [at])];
    }

    method PruneRestartHistory(key: string, now: int)
      requires key in children
      modifies this
      ensures var c := old(children)[key];
              children == old(children)[key := c.(restartTimestamps := Pruned(c.restartTimestamps, now))]
    {
      var state := children[key];
      if |state.restartTimestamps| == 0 {
        return;
      }
      var windowStart := now - WINDOW;
      var index := 0;
      while index < |state.restartTimestamps| && state.restartTimestamps[index] < windowStart
        invariant index <= |state.restartTimestamps|
        invariant Pruned(state.restartTimestamps, now) == Pruned(state.restartTimestamps[index..], now)
      {
        assert state.restartTimestamps[index..][1..] == state.restartTimestamps[index + 1..];
        index := index + 1;
      }
      if index > 0 {
        children := children[key := state.(restartTimestamps := state.restartTimestamps[index..])];
      }
    }

    method ComputeQuotaWait(key: string, now: int) returns (wait: Option<nat>)
      requires key in children
      modifies this
      ensures var c := old(children)[key];
              && children == old(children)[key := c.(restartTimestamps := Seen(options, c, now))]
              && wait == QuotaWait(options, Seen(options, c, now), now)
    {
      if options.quota.None? {
        return Some(0);
      }
      PruneRestartHistory(key, now);
      var stamps := children[key].restartTimestamps;
      if |stamps| < options.quota.value {
        return Some(0);
      }
      if |stamps| == 0 {
        return None;
      }
      return Some(Positive(stamps[0] + WINDOW - now));
    }
  }

  // ---------------------------------------------------------------------------------------------
  // Backoff
  // ---------------------------------------------------------------------------------------------

  /** The factor applied `k - 1` times to the minimum, rounding each time, with no cap. */
  function Uncapped(o: Options, k: nat): int
    requires k >= 1
  {
    if k == 1 then o.minBackoffMs else Grow(Uncapped(o, k - 1), o.backoffFactor)
  }

  function Capped(o: Options, x: int): int {
    if x > o.maxBackoffMs then o.maxBackoffMs else x
  }

  lemma GrowGrows(d: int, factor: real)
    requires d >= 0 && factor >= 1.0
    ensures Grow(d, factor) >= d
  {
    var more := factor - 1.0;
    assert d as real * factor == d as real + d as real * more;
    SignOfProduct(d as real, more);
  }

  lemma {:induction false} UncappedGrows(o: Options, k: nat)
    requires OptionsValid(o) && k >= 1
    ensures o.minBackoffMs <= Uncapped(o, k) <= Uncapped(o, k + 1)
    decreases k
  {
    hide Grow;
    if k > 1 {
      UncappedGrows(o, k - 1);
    }
    GrowGrows(Uncapped(o, k), o.backoffFactor);
  }

  /** `k` failures in a row from a fresh or reset state. */
  function Failed(o: Options, c: Child, times: seq<int>): Child {
    if times == [] then c else Bumped(o, Failed(o, c, times[..|times| - 1]), times[|times| - 1])
  }

  /**
   After `k` failures in a row the delay is the `k`-th uncapped delay cut to the maximum, although the code caps at
   every step; it lies between minimum and maximum, never shrinks from one failure to the next, and the next
   attempt is allowed that long after the last failure.
   */
  lemma {:induction false} BackoffIsCappedIterate(o: Options, c: Child, times: seq<int>)
    requires OptionsValid(o) && c.attempts == 0 && times != []
    ensures var c', k := Failed(o, c, times), |times|;
            && c'.attempts == k
            && c'.nextDelayMs == Capped(o, Uncapped(o, k))
            && o.minBackoffMs <= c'.nextDelayMs <= o.maxBackoffMs
            && c'.nextAllowedAt == times[k - 1] + c'.nextDelayMs
            && c'.nextDelayMs <= NextDelay(o, k + 1, c'.nextDelayMs)
  {
    hide Grow, Uncapped;
    var k := |times|;
    assert Uncapped(o, 1) == o.minBackoffMs by { FirstUncapped(o); }
    if k == 1 {
      assert times[..0] == [];
      assert Failed(o, c, times[..0]) == c;
      UncappedGrows(o, 1);
      GrowGrows(o.minBackoffMs, o.backoffFactor);
    } else {
      BackoffIsCappedIterate(o, c, times[..k - 1]);
      UncappedGrows(o, k - 1);
      UncappedGrows(o, k);
      var before := Failed(o, c, times[..k - 1]);
      NextUncapped(o, k);
      GrowGrows(before.nextDelayMs, o.backoffFactor);
      GrowGrows(Failed(o, c, times).nextDelayMs, o.backoffFactor);
    }
  }

  lemma FirstUncapped(o: Options)
    ensures Uncapped(o, 1) == o.minBackoffMs
  {
  }

  lemma NextUncapped(o: Options, k: nat)
    requires k >= 2
    ensures Uncapped(o, k) == Grow(Uncapped(o, k - 1), o.backoffFactor)
  {
  }

  /**
   An attempt never starts before it is asked for, and starts no earlier than the backoff allows except in one case:
   a quota below one, with no restart of the last minute on record, skips the wait, and so starts too early unless
   the clock has moved far enough by itself.
   */
  lemma NoStartTooEarly(o: Options, c: Child, now: int, late: nat)
    ensures StartedAt(o, c, now, late) >= now
    ensures StartedAt(o, c, now, late) >= c.nextAllowedAt <==>
              !(o.quota == Some(0) && Pruned(c.restartTimestamps, now) == [] && now + late < c.nextAllowedAt)
  {
    hide Pruned;
  }

  // ---------------------------------------------------------------------------------------------
  // The quota
  // ---------------------------------------------------------------------------------------------

  /** No more than `quota` starts lie within any closed window of a minute. */
  ghost predicate Paced(starts: seq<int>, quota: nat) {
    forall i, j :: 0 <= i <= j < |starts| && starts[j] - starts[i] <= WINDOW ==> j - i + 1 <= quota
  }

  ghost predicate Ordered(starts: seq<int>) {
    forall i, j :: 0 <= i <= j < |starts| ==> starts[i] <= starts[j]
  }

  /** The stamps kept are the last of all starts, and every start of the minute before `clock` is kept. */
  ghost predicate Remembers(stamps: seq<int>, starts: seq<int>, clock: int) {
    && Ordered(starts)
    && |stamps| <= |starts| && stamps == starts[|starts| - |stamps|..]
    && (forall i :: 0 <= i < |starts| - |stamps| ==> starts[i] < clock - WINDOW)
    && (forall i :: 0 <= i < |starts| ==> starts[i] <= clock)
  }

  lemma {:induction false} PrunedRemembers(stamps: seq<int>, starts: seq<int>, clock: int, now: int)
    requires Remembers(stamps, starts, clock) && clock <= now
    ensures Remembers(Pruned(stamps, now), starts, now)
    ensures forall i :: 0 <= i < |Pruned(stamps, now)| ==> Pruned(stamps, now)[i] >= now - WINDOW
    decreases |stamps|
  {
    if stamps != [] {
      assert stamps[0] == starts[|starts| - |stamps|];
      if stamps[0] < now - WINDOW {
        assert Remembers(stamps[1..], starts, now);
        PrunedRemembers(stamps[1..], starts, now, now);
      } else {
        forall i | 0 <= i < |stamps| ensures stamps[i] >= now - WINDOW {
          assert stamps[i] == starts[|starts| - |stamps| + i];
        }
      }
    }
  }

  /**
   The quota is used up when the attempt is asked for, and it starts the very moment the oldest restart is a minute
   old. A quota of zero allows no start at all.
   */
  predicate OnTheInstant(o: Options, c: Child, now: int, late: nat)
    requires o.quota.Some?
  {
    var stamps := Pruned(c.restartTimestamps, now);
    || o.quota.value == 0
    || (|stamps| >= o.quota.value && stamps != [] && StartedAt(o, c, now, late) == stamps[0] + WINDOW)
  }

  lemma StartIsRemembered(o: Options, c: Child, starts: seq<int>, clock: int, now: int, late: nat)
    requires o.quota.Some? && clock <= now && Remembers(c.restartTimestamps, starts, clock)
    ensures var at := StartedAt(o, c, now, late);
            at >= now && Remembers(Started(o, c, now, late).restartTimestamps, starts + [at], at)
  {
    hide Pruned, Wait, Remembers;
    var stamps, at := Pruned(c.restartTimestamps, now), StartedAt(o, c, now, late);
    PrunedRemembers(c.restartTimestamps, starts, clock, now);
    PrunedRemembers(stamps, starts, now, at);
    StartedRemembers(Pruned(stamps, at), starts, at);
  }

  /** A start keeps the pace exactly when it does not fall on that instant. */
  lemma StartKeepsPaceIff(o: Options, c: Child, starts: seq<int>, clock: int, now: int, late: nat)
    requires OptionsValid(o) && o.quota.Some? && clock <= now
    requires Remembers(c.restartTimestamps, starts, clock) && Paced(starts, o.quota.value)
    ensures var at := StartedAt(o, c, now, late);
            && at >= now && Remembers(Started(o, c, now, late).restartTimestamps, starts + [at], at)
            && (Paced(starts + [at], o.quota.value) <==> !OnTheInstant(o, c, now, late))
  {
    hide Pruned, Wait, Started, StartedAt;
    StartIsRemembered(o, c, starts, clock, now, late);
    if o.quota.value == 0 {
      OneIsTooMany(starts, StartedAt(o, c, now, late));
    } else {
      QuotaKeepsPaceIff(o, c, starts, clock, now, late);
    }
  }

  lemma OneIsTooMany(starts: seq<int>, at: int)
    ensures !Paced(starts + [at], 0)
  {
    var all, i := starts + [at], |starts|;
    assert i < |all| && all[i] == at;
    assert !(0 <= i <= i < |all| && all[i] - all[i] <= WINDOW ==> i - i + 1 <= 0);
  }

  lemma QuotaKeepsPaceIff(o: Options, c: Child, starts: seq<int>, clock: int, now: int, late: nat)
    requires o.quota.Some? && o.quota.value >= 1 && clock <= now
    requires Remembers(c.restartTimestamps, starts, clock) && Paced(starts, o.quota.value)
    ensures Paced(starts + [StartedAt(o, c, now, late)], o.quota.value) <==> !OnTheInstant(o, c, now, late)
  {
    hide Pruned, Wait, BackoffWait;
    var q := o.quota.value;
    var stamps, at := Pruned(c.restartTimestamps, now), StartedAt(o, c, now, late);
    PrunedRemembers(c.restartTimestamps, starts, clock, now);
    var first := |starts| - |stamps|;
    if |stamps| >= q {
      assert starts[first] == stamps[0] && starts[|starts| - 1] <= now;
      assert |stamps| == q;
      WaitCoversQuota(o, c, now);
      if at == stamps[0] + WINDOW {
        assert (starts + [at])[|starts|] - (starts + [at])[first] == WINDOW;
      } else {
        LateEnough(starts, at, q, first);
      }
    } else {
      LateEnough(starts, at, q, first - 1);
    }
  }

  lemma WaitCoversQuota(o: Options, c: Child, now: int)
    ensures QuotaWait(o, Seen(o, c, now), now).GetOr(0) <= Wait(o, c, now).GetOr(0)
  {
  }

  lemma StartedRemembers(stamps: seq<int>, starts: seq<int>, at: int)
    requires Remembers(stamps, starts, at)
    ensures Remembers(stamps + [at], starts + [at], at)
  {
  }

  /** Once the start `before`, `quota` places back from the end, is more than a minute past, one more start fits. */
  lemma LateEnough(starts: seq<int>, at: int, quota: nat, before: int)
    requires Ordered(starts) && Paced(starts, quota) && quota >= 1
    requires -1 <= before < |starts| && |starts| - before <= quota
    requires before >= 0 ==> at - starts[before] > WINDOW
    requires |starts| > 0 ==> starts[|starts| - 1] <= at
    ensures Paced(starts + [at], quota)
  {
    var all := starts + [at];
    assert forall i :: 0 <= i <= before ==> starts[i] <= starts[before];
    forall i, j | 0 <= i <= j < |all| && all[j] - all[i] <= WINDOW ensures j - i + 1 <= quota {
      assert j < |starts| || i > before;
    }
  }

  // ---------------------------------------------------------------------------------------------
  // Whole runs of one key
  // ---------------------------------------------------------------------------------------------

  /** Attempts follow one another: each ends before the next is asked for. */
  datatype Op =
    | Attempt(now: int, late: nat)
    | Failure(at: int)
    | Success

  /** The state of the key, all its starts so far, and the last clock reading. */
  datatype Life = Life(child: Child, starts: seq<int>, clock: int)

  function Live(o: Options, l: Life, op: Op): Life {
    match op
    case Attempt(now, late) =>
      var at := StartedAt(o, l.child, now, late);
      Life(Started(o, l.child, now, late), l.starts + [at], at)
    case Failure(at) => Life(Bumped(o, l.child, at), l.starts, at)
    case Success => l.(child := Reset(o, l.child))
  }

  predicate Timely(l: Life, op: Op) {
    match op
    case Attempt(now, _) => l.clock <= now
    case Failure(at) => l.clock <= at
    case Success => true
  }

  predicate TimelyRun(o: Options, l: Life, ops: seq<Op>)
    decreases |ops|
  {
    ops == [] || (Timely(l, ops[0]) && TimelyRun(o, Live(o, l, ops[0]), ops[1..]))
  }

  function Run(o: Options, l: Life, ops: seq<Op>): Life
    decreases |ops|
  {
    if ops == [] then l else Run(o, Live(o, l, ops[0]), ops[1..])
  }

  /** Some attempt of the run starts on the instant. */
  predicate HitsInstant(o: Options, l: Life, ops: seq<Op>)
    requires o.quota.Some?
    decreases |ops|
  {
    ops != [] && (
      (ops[0].Attempt? && OnTheInstant(o, l.child, ops[0].now, ops[0].late))
        || HitsInstant(o, Live(o, l, ops[0]), ops[1..]))
  }

  /** Once too many starts share a window they always will. */
  lemma PaceIsNotRegained(starts: seq<int>, more: seq<int>, quota: nat)
    requires !Paced(starts, quota)
    ensures !Paced(starts + more, quota)
  {
    var i, j :| 0 <= i <= j < |starts| && starts[j] - starts[i] <= WINDOW && j - i + 1 > quota;
    assert (starts + more)[j] - (starts + more)[i] <= WINDOW;
  }

  lemma {:induction false} StartsOnlyGrow(o: Options, l: Life, ops: seq<Op>) returns (more: seq<int>)
    ensures Run(o, l, ops).starts == l.starts + more
    decreases |ops|
  {
    hide Started, StartedAt, Bumped;
    if ops == [] {
      more := [];
    } else {
      var l' := Live(o, l, ops[0]);
      var rest := StartsOnlyGrow(o, l', ops[1..]);
      more := (if ops[0].Attempt? then [StartedAt(o, l.child, ops[0].now, ops[0].late)] else []) + rest;
    }
  }

  /**
   Over any run of one key, whatever fails and succeeds in between, every closed window of a minute holds at most
   the quota of starts if and only if no attempt starts on the instant the oldest restart turns a minute old.
   */
  lemma {:induction false} QuotaHoldsIff(o: Options, l: Life, ops: seq<Op>)
    requires OptionsValid(o) && o.quota.Some? && TimelyRun(o, l, ops)
    requires Remembers(l.child.restartTimestamps, l.starts, l.clock) && Paced(l.starts, o.quota.value)
    ensures Paced(Run(o, l, ops).starts, o.quota.value) <==> !HitsInstant(o, l, ops)
    decreases |ops|
  {
    hide Started, StartedAt, OnTheInstant, Paced, Remembers;
    if ops != [] {
      var l' := Live(o, l, ops[0]);
      match ops[0]
      case Attempt(now, late) =>
        StartKeepsPaceIff(o, l.child, l.starts, l.clock, now, late);
        if OnTheInstant(o, l.child, now, late) {
          var more := StartsOnlyGrow(o, l', ops[1..]);
          PaceIsNotRegained(l'.starts, more, o.quota.value);
        } else {
          QuotaHoldsIff(o, l', ops[1..]);
        }
      case Failure(at) =>
        LaterStillRemembers(l.child.restartTimestamps, l.starts, l.clock, at);
        QuotaHoldsIff(o, l', ops[1..]);
      case Success =>
        QuotaHoldsIff(o, l', ops[1..]);
    }
  }

  lemma LaterStillRemembers(stamps: seq<int>, starts: seq<int>, clock: int, later: int)
    requires Remembers(stamps, starts, clock) && clock <= later
    ensures Remembers(stamps, starts, later)
  {
  }

  /** The state of a key nobody has asked about, at a clock reading. */
  function NewLife(o: Options, clock: int): Life {
    Life(NewChild(o), [], clock)
  }

  /** From its first attempt on, a key keeps the quota in every closed minute exactly when none hits the instant. */
  lemma NewKeyHoldsQuotaIff(o: Options, clock: int, ops: seq<Op>)
    requires OptionsValid(o) && o.quota.Some? && TimelyRun(o, NewLife(o, clock), ops)
    ensures Paced(Run(o, NewLife(o, clock), ops).starts, o.quota.value) <==> !HitsInstant(o, NewLife(o, clock), ops)
  {
    QuotaHoldsIff(o, NewLife(o, clock), ops);
  }

  // ---------------------------------------------------------------------------------------------
  // Starts and delays in milliseconds
  // ---------------------------------------------------------------------------------------------

  /** The stamps from the first one within the last minute on are those kept. */
  lemma {:induction false} PrunedInNumbers(stamps: seq<int>, now: int) returns (k: nat)
    requires Ordered(stamps)
    ensures k <= |stamps| && Pruned(stamps, now) == stamps[k..]
    ensures forall i :: 0 <= i < |stamps| ==> (stamps[i] >= now - 60000 <==> i >= k)
    decreases |stamps|
  {
    if stamps != [] && stamps[0] < now - WINDOW {
      var rest := PrunedInNumbers(stamps[1..], now);
      k := rest + 1;
      forall i | 0 <= i < |stamps| ensures stamps[i] >= now - 60000 <==> i >= k {
        if i > 0 {
          assert stamps[i] == stamps[1..][i - 1];
        }
      }
    } else {
      k := 0;
    }
  }

  /**
   An attempt starts at the latest of three times, and then as late as the clock is: when it was asked for, when the
   backoff allows, and, if as many restarts as the quota lie within the last minute, when the oldest of these is a
   minute old. A quota below one with no such restart is the exception: neither wait is taken.
   */
  lemma StartInNumbers(o: Options, c: Child, now: int, late: nat) returns (k: nat)
    requires Ordered(c.restartTimestamps)
    ensures var stamps, start := c.restartTimestamps, StartedAt(o, c, now, late) - late;
            && k <= |stamps| && (forall i :: 0 <= i < |stamps| ==> (stamps[i] >= now - 60000 <==> i >= k))
            && if o.quota == Some(0) && k == |stamps| then start == now
               else
                 var used := o.quota.Some? && |stamps| - k >= o.quota.value;
                 && start >= now && start >= c.nextAllowedAt && (used ==> start >= stamps[k] + 60000)
                 && (start == now || start == c.nextAllowedAt || (used && start == stamps[k] + 60000))
  {
    hide Pruned;
    k := PrunedInNumbers(c.restartTimestamps, now);
  }

  /** A delay grows to the nearest whole number of milliseconds, halves up. */
  lemma GrowthInNumbers(d: int, factor: real)
    ensures d as real * factor - 0.5 < Grow(d, factor) as real <= d as real * factor + 0.5
  {
  }

  function Power(n: nat, k: nat): nat {
    if k == 0 then 1 else n * Power(n, k - 1)
  }

  /** With a whole factor the delays are the minimum times its powers. */
  lemma {:induction false} DelaysArePowers(o: Options, n: nat, k: nat)
    requires o.backoffFactor == n as real && k >= 1
    ensures Uncapped(o, k) == o.minBackoffMs * Power(n, k - 1)
    decreases k
  {
    if k > 1 {
      hide Grow;
      DelaysArePowers(o, n, k - 1);
      var d := Uncapped(o, k - 1);
      WholeGrowth(d, n);
      assert d * n == o.minBackoffMs * Power(n, k - 2) * n == o.minBackoffMs * (n * Power(n, k - 2));
    } else {
      assert Power(n, 0) == 1;
    }
  }

  lemma WholeGrowth(d: int, n: nat)
    ensures Grow(d, n as real) == d * n
  {
    assert d as real * n as real == (d * n) as real;
  }

  /**
   Without a quota, an attempt after `k` failures in a row starts when it is asked for, or once the `k`-th delay, cut
   to the maximum, has passed since the last failure.
   */
  lemma FailuresDelayTheStart(o: Options, c: Child, times: seq<int>, now: int, late: nat)
    requires OptionsValid(o) && o.quota.None? && c.attempts == 0 && times != []
    ensures var delay, last := Capped(o, Uncapped(o, |times|)), times[|times| - 1];
            StartedAt(o, Failed(o, c, times), now, late)
            == (if now < last + delay then last + delay else now) + late
  {
    hide Uncapped, Failed, NextDelay, Capped;
    BackoffIsCappedIterate(o, c, times);
  }

  /** A success makes a key as new, but for its restarts: nothing is held back, and the first delay is the least. */
  lemma SuccessStartsOver(o: Options, c: Child, now: int, late: nat, at: int)
    requires OptionsValid(o) && now >= 0
    ensures var c' := Reset(o, c);
            && c' == NewChild(o).(restartTimestamps := c.restartTimestamps)
            && (o.quota.None? ==> StartedAt(o, c', now, late) == now + late)
            && Bumped(o, c', at).attempts == 1 && Bumped(o, c', at).nextAllowedAt == at + o.minBackoffMs
  {
  }
}
