/**
 The bounded event store (src/eventStore.ts, lines 205-480): a global history and one bucket per job and per
 kind, all cut to the same limit, which may change at any time.
 */
module EventStores {
  import opened Outcomes

  /** An absent or empty job or child identifier is `""`. */
  datatype Event = Event(seqNo: nat, kind: string, jobId: string, childId: string, payload: string)

  datatype Input = Input(kind: string, jobId: string, childId: string, payload: string)

  type Buckets = map<string, seq<Event>>

  /** `log` is every event ever emitted. */
  datatype History = History(
    last: nat, maxHistory: int, events: seq<Event>, perJob: Buckets, perKind: Buckets, ghost log: seq<Event>)

  /** No kinds means every kind; an empty identifier means every identifier. */
  datatype Filters = Filters(jobId: string, childId: string, minSeq: Option<int>, kinds: set<string>,
    limit: Option<int>, reverse: bool)

  // ---------------------------------------------------------------------------------------------
  // Specification
  // ---------------------------------------------------------------------------------------------

  function AtLeastOne(limit: int): int {
    if limit < 1 then 1 else limit
  }

  /** The newest `limit` events. */
  function Newest(events: seq<Event>, limit: int): seq<Event> {
    if 0 <= limit < |events| then events[|events| - limit..] else events
  }

  function Bucket(buckets: Buckets, key: string): seq<Event> {
    if key in buckets then buckets[key] else []
  }

  function Push(buckets: Buckets, key: string, event: Event, limit: int): Buckets {
    buckets[key := Newest(Bucket(buckets, key) + [event], limit)]
  }

  function Trimmed(buckets: Buckets, limit: int): Buckets {
    map k | k in buckets && Newest(buckets[k], limit) != [] :: Newest(buckets[k], limit)
  }

  ghost function Emitted(h: History, e: Event): History {
    History(e.seqNo, h.maxHistory, Newest(h.events + [e], h.maxHistory),
      if e.jobId == "" then h.perJob else Push(h.perJob, e.jobId, e, h.maxHistory),
      Push(h.perKind, e.kind, e, h.maxHistory), h.log + [e])
  }

  ghost function Limited(h: History, limit: int): History {
    var max := AtLeastOne(limit);
    History(h.last, max, Newest(h.events, max), Trimmed(h.perJob, max), Trimmed(h.perKind, max), h.log)
  }

  predicate Selected(f: Filters, e: Event) {
    && (f.minSeq.Some? ==> e.seqNo > f.minSeq.value)
    && (f.jobId != "" ==> e.jobId == f.jobId)
    && (f.childId != "" ==> e.childId == f.childId)
    && (f.kinds != {} ==> e.kind in f.kinds)
  }

  function Filter(events: seq<Event>, f: Filters): seq<Event> {
    if events == [] then []
    else
      var front, last := Filter(events[..|events| - 1], f), events[|events| - 1];
      if Selected(f, last) then front + [last] else front
  }

  function Reversed(events: seq<Event>): seq<Event> {
    if events == [] then [] else [events[|events| - 1]] + Reversed(events[..|events| - 1])
  }

  function ApplyWindow(events: seq<Event>, f: Filters): seq<Event> {
    var ordered := if f.reverse then Reversed(events) else events;
    if f.limit.None? then ordered
    else if f.limit.value <= 0 then []
    else if f.limit.value < |ordered| then ordered[..f.limit.value]
    else ordered
  }

  const ALL := Filters("", "", None, {}, None, false)

  // ---------------------------------------------------------------------------------------------
  // The store
  // ---------------------------------------------------------------------------------------------

  class EventStore {
    var last: nat
    var maxHistory: int
    var events: seq<Event>
    var perJob: Buckets
    var perKind: Buckets
    ghost var log: seq<Event>

    constructor (maxHistory: int)
      ensures Abs() == History(0, AtLeastOne(maxHistory), [], map[], map[], []) && Consistent(Abs())
    {
      EmptyIsConsistent(maxHistory);
      this.maxHistory := AtLeastOne(maxHistory);
      last, events, perJob, perKind, log := 0, [], map[], map[], [];
    }

    ghost function Abs(): History
      reads this
    {
      History(last, maxHistory, events, perJob, perKind, log)
    }

    /** One `shift` is enough: nothing was over the limit before. */
    method Emit(input: Input) returns (event: Event)
      requires Consistent(Abs())
      modifies this
      ensures Consistent(Abs())
      ensures event == Event(old(last) + 1, input.kind, input.jobId, input.childId, input.payload)
      ensures Abs() == Emitted(old(Abs()), event)
    {
      hide Consistent;
      ghost var before := Abs();
      WithinLimit(before);
      last := last + 1;
      event := Event(last, input.kind, input.jobId, input.childId, input.payload);
      log := log + [event];
      events := events + [event];
      if |events| > maxHistory {
        events := events[1..];
      }
      if event.jobId != "" {
        perJob := PushInto(perJob, event.jobId, event);
      }
      perKind := PushInto(perKind, event.kind, event);
      EmitKeepsConsistent(before, event);
    }

    /** Just pushed to, the bucket is not empty, so it is never dropped here. */
    method PushInto(buckets: Buckets, key: string, event: Event) returns (buckets': Buckets)
      requires maxHistory >= 1 && |Bucket(buckets, key)| <= maxHistory
      ensures buckets' == Push(buckets, key, event, maxHistory)
    {
      var existing := Bucket(buckets, key) + [event];
      if |existing| > maxHistory {
        existing := existing[1..];
      }
      buckets' := buckets[key := existing];
    }

    method SetMaxHistory(limit: int)
      requires Consistent(Abs())
      modifies this
      ensures Consistent(Abs()) && Abs() == Limited(old(Abs()), limit)
    {
      hide Consistent;
      LimitKeepsConsistent(Abs(), limit);
      maxHistory := AtLeastOne(limit);
      events := Shifted(events);
      perJob := TrimBuckets(perJob);
      perKind := TrimBuckets(perKind);
    }

    method Shifted(events: seq<Event>) returns (kept: seq<Event>)
      requires maxHistory >= 1
      ensures kept == Newest(events, maxHistory)
    {
      kept := events;
      while |kept| > maxHistory
        invariant |kept| <= |events| && kept == events[|events| - |kept|..]
        invariant |kept| < |events| ==> |kept| >= maxHistory
      {
        kept := kept[1..];
      }
    }

    method TrimBuckets(buckets: Buckets) returns (trimmed: Buckets)
      requires maxHistory >= 1
      ensures trimmed == Trimmed(buckets, maxHistory)
    {
      hide Newest;
      trimmed := buckets;
      var keys := buckets.Keys;
      while keys != {}
        invariant keys <= buckets.Keys
        invariant forall k :: k in keys ==> k in trimmed && trimmed[k] == buckets[k]
        invariant forall k :: k !in keys ==> (k in trimmed <==> k in buckets && Newest(buckets[k], maxHistory) != [])
        invariant forall k :: k in trimmed && k !in keys ==>
          k in buckets && trimmed[k] == Newest(buckets[k], maxHistory)
        invariant forall k :: k in trimmed ==> k in buckets
        decreases |keys|
      {
        var key :| key in keys;
        keys := keys - {key};
        var events := Shifted(trimmed[key]);
        if |events| == 0 {
          trimmed := trimmed - {key};
        } else {
          trimmed := trimmed[key := events];
        }
      }
    }

    method List(f: Filters) returns (found: seq<Event>)
      ensures found == ApplyWindow(Filter(events, f), f)
      ensures forall e :: e in found ==> e in events && Selected(f, e)
      ensures f.limit.None? ==> forall e :: e in events && Selected(f, e) ==> e in found
    {
      hide Filter, ApplyWindow, Selected;
      var filtered := Filter(events, f);
      found := ApplyWindow(filtered, f);
      FilterSelects(events, f);
      WindowShows(filtered, f);
    }

    /** The bucket is looked up by `f.jobId`; the job itself is not compared again. */
    method ListForJob(f: Filters) returns (found: seq<Event>)
      ensures found == ApplyWindow(Filter(Bucket(perJob, f.jobId), f.(jobId := "")), f)
      ensures forall e :: e in found ==> e in Bucket(perJob, f.jobId) && Selected(f.(jobId := ""), e)
      ensures f.limit.None? ==> forall e :: e in Bucket(perJob, f.jobId) && Selected(f.(jobId := ""), e) ==> e in found
    {
      hide Filter, ApplyWindow, Selected;
      FilterSelects(Bucket(perJob, f.jobId), f.(jobId := ""));
      WindowShows(Filter(Bucket(perJob, f.jobId), f.(jobId := "")), f);
      var filtered := Filter(Bucket(perJob, f.jobId), f.(jobId := ""));
      found := ApplyWindow(filtered, f);
    }

    method GetEventsByKind(kind: string) returns (found: seq<Event>)
      ensures found == Bucket(perKind, kind)
    {
      found := Bucket(perKind, kind);
    }
  }

  // ---------------------------------------------------------------------------------------------
  // Suffixes
  // ---------------------------------------------------------------------------------------------

  ghost predicate Suffix(a: seq<Event>, b: seq<Event>) {
    |a| <= |b| && a == b[|b| - |a|..]
  }

  lemma SuffixIsTransitive(a: seq<Event>, b: seq<Event>, c: seq<Event>)
    requires Suffix(a, b) && Suffix(b, c)
    ensures Suffix(a, c)
  {
  }

  lemma NewestIsSuffix(a: seq<Event>, limit: int)
    requires limit >= 0
    ensures Suffix(Newest(a, limit), a) && |Newest(a, limit)| == if |a| < limit then |a| else limit
  {
  }

  lemma AppendKeepsSuffix(a: seq<Event>, b: seq<Event>, e: Event)
    requires Suffix(a, b)
    ensures Suffix(a + [e], b + [e])
  {
  }

  /** A suffix that is short enough survives the cut. */
  lemma ShortSuffixSurvives(a: seq<Event>, b: seq<Event>, limit: int)
    requires Suffix(a, b) && |a| <= limit
    ensures Suffix(a, Newest(b, limit))
  {
  }

  lemma {:induction false} FilterIsShorter(a: seq<Event>, f: Filters)
    ensures |Filter(a, f)| <= |a|
  {
    if a != [] {
      FilterIsShorter(a[..|a| - 1], f);
    }
  }

  /** Selecting from the end of a history gives the end of what is selected from all of it. */
  lemma {:induction false} FilterKeepsSuffix(a: seq<Event>, b: seq<Event>, f: Filters)
    requires Suffix(a, b)
    ensures Suffix(Filter(a, f), Filter(b, f))
    decreases |a|
  {
    if a != [] {
      assert a[|a| - 1] == b[|b| - 1];
      FilterKeepsSuffix(a[..|a| - 1], b[..|b| - 1], f);
    }
  }

  lemma {:induction false} FilterSelects(a: seq<Event>, f: Filters)
    ensures forall e :: e in Filter(a, f) <==> e in a && Selected(f, e)
  {
    hide Selected;
    if a != [] {
      FilterSelects(a[..|a| - 1], f);
      assert a == a[..|a| - 1] + [a[|a| - 1]];
    }
  }

  lemma {:induction false} ReversedShowsAll(a: seq<Event>)
    ensures forall e :: e in Reversed(a) <==> e in a
  {
    if a != [] {
      ReversedShowsAll(a[..|a| - 1]);
      assert a == a[..|a| - 1] + [a[|a| - 1]];
    }
  }

  lemma WindowShows(a: seq<Event>, f: Filters)
    ensures forall e :: e in ApplyWindow(a, f) ==> e in a
    ensures f.limit.None? ==> forall e :: e in a ==> e in ApplyWindow(a, f)
  {
    ReversedShowsAll(a);
  }

  lemma FilterOneMore(a: seq<Event>, e: Event, f: Filters)
    ensures Filter(a + [e], f) == if Selected(f, e) then Filter(a, f) + [e] else Filter(a, f)
  {
    assert (a + [e])[..|a|] == a;
  }

  // ---------------------------------------------------------------------------------------------
  // The indexes agree with the log
  // ---------------------------------------------------------------------------------------------

  function OfJob(job: string): Filters { ALL.(jobId := job) }

  function OfKind(kind: string): Filters { ALL.(kinds := {kind}) }

  /** A bucket ends the selected part of the log, is within the limit, and covers what the global history still has. */
  ghost predicate Indexes(bucket: seq<Event>, h: History, f: Filters) {
    && Suffix(bucket, Filter(h.log, f)) && |bucket| <= h.maxHistory
    && Suffix(Filter(h.events, f), bucket)
  }

  ghost predicate Numbered(log: seq<Event>) {
    forall i :: 0 <= i < |log| ==> log[i].seqNo == i + 1
  }

  ghost predicate LogConsistent(h: History) {
    && h.maxHistory >= 1 && h.last == |h.log| && Numbered(h.log)
    && Suffix(h.events, h.log) && |h.events| <= h.maxHistory
  }

  ghost predicate JobsConsistent(h: History) {
    && (forall job :: job != "" ==> Indexes(Bucket(h.perJob, job), h, OfJob(job)))
    && Bucket(h.perJob, "") == []
  }

  ghost predicate KindsConsistent(h: History) {
    forall kind :: Indexes(Bucket(h.perKind, kind), h, OfKind(kind))
  }

  ghost predicate NoneEmpty(buckets: Buckets) {
    forall k :: k in buckets ==> buckets[k] != []
  }

  ghost predicate Consistent(h: History) {
    LogConsistent(h) && JobsConsistent(h) && KindsConsistent(h) && NoneEmpty(h.perJob) && NoneEmpty(h.perKind)
  }

  lemma EmptyIsConsistent(limit: int)
    ensures Consistent(History(0, AtLeastOne(limit), [], map[], map[], []))
  {
  }

  lemma WithinLimit(h: History)
    requires Consistent(h)
    ensures h.maxHistory >= 1 && |h.events| <= h.maxHistory
    ensures forall k :: |Bucket(h.perJob, k)| <= h.maxHistory && |Bucket(h.perKind, k)| <= h.maxHistory
  {
    hide Filter, Suffix, Bucket;
    forall k ensures |Bucket(h.perJob, k)| <= h.maxHistory && |Bucket(h.perKind, k)| <= h.maxHistory {
      assert Indexes(Bucket(h.perKind, k), h, OfKind(k));
      assert k != "" ==> Indexes(Bucket(h.perJob, k), h, OfJob(k));
    }
  }

  /** One bucket through one emission, whether or not the event is its own. */
  lemma IndexAfterEmit(bucket: seq<Event>, h: History, e: Event, f: Filters)
    requires Indexes(bucket, h, f) && h.maxHistory >= 1 && Suffix(h.events, h.log) && |h.events| <= h.maxHistory
    ensures Indexes(if Selected(f, e) then Newest(bucket + [e], h.maxHistory) else bucket, Emitted(h, e), f)
  {
    hide Selected, Filter;
    var h' := Emitted(h, e);
    FilterOneMore(h.log, e, f);
    FilterOneMore(h.events, e, f);
    NewestIsSuffix(h.events + [e], h.maxHistory);
    FilterKeepsSuffix(h'.events, h.events + [e], f);
    FilterIsShorter(h'.events, f);
    if Selected(f, e) {
      AppendKeepsSuffix(bucket, Filter(h.log, f), e);
      NewestIsSuffix(bucket + [e], h.maxHistory);
      SuffixIsTransitive(Newest(bucket + [e], h.maxHistory), bucket + [e], Filter(h.log, f) + [e]);
      AppendKeepsSuffix(Filter(h.events, f), bucket, e);
      SuffixIsTransitive(Filter(h'.events, f), Filter(h.events, f) + [e], bucket + [e]);
      ShortSuffixSurvives(Filter(h'.events, f), bucket + [e], h.maxHistory);
    } else {
      SuffixIsTransitive(Filter(h'.events, f), Filter(h.events, f), bucket);
    }
  }

  lemma NumberedGrows(log: seq<Event>, e: Event)
    requires Numbered(log) && e.seqNo == |log| + 1
    ensures Numbered(log + [e])
  {
  }

  lemma EmitKeepsLog(h: History, e: Event)
    requires LogConsistent(h) && e.seqNo == h.last + 1
    ensures LogConsistent(Emitted(h, e))
  {
    hide Suffix, Newest, Push, Numbered;
    NumberedGrows(h.log, e);
    AppendKeepsSuffix(h.events, h.log, e);
    NewestIsSuffix(h.events + [e], h.maxHistory);
    SuffixIsTransitive(Newest(h.events + [e], h.maxHistory), h.events + [e], h.log + [e]);
    assert Emitted(h, e).log == h.log + [e];
  }

  lemma EmitKeepsJobs(h: History, e: Event)
    requires LogConsistent(h) && JobsConsistent(h)
    ensures JobsConsistent(Emitted(h, e))
  {
    hide Indexes, Filter, Newest, Suffix;
    var h' := Emitted(h, e);
    forall job | job != "" ensures Indexes(Bucket(h'.perJob, job), h', OfJob(job)) {
      IndexAfterEmit(Bucket(h.perJob, job), h, e, OfJob(job));
      assert Selected(OfJob(job), e) <==> e.jobId == job;
    }
  }

  lemma EmitKeepsKinds(h: History, e: Event)
    requires LogConsistent(h) && KindsConsistent(h)
    ensures KindsConsistent(Emitted(h, e))
  {
    hide Indexes, Filter, Newest, Suffix;
    var h' := Emitted(h, e);
    forall kind ensures Indexes(Bucket(h'.perKind, kind), h', OfKind(kind)) {
      IndexAfterEmit(Bucket(h.perKind, kind), h, e, OfKind(kind));
      assert Selected(OfKind(kind), e) <==> e.kind == kind;
    }
  }

  lemma PushLeavesNoneEmpty(buckets: Buckets, key: string, e: Event, limit: int)
    requires NoneEmpty(buckets) && limit >= 1
    ensures NoneEmpty(Push(buckets, key, e, limit))
  {
  }

  lemma EmitKeepsConsistent(h: History, e: Event)
    requires Consistent(h) && e.seqNo == h.last + 1
    ensures Consistent(Emitted(h, e))
  {
    hide JobsConsistent, KindsConsistent, NoneEmpty, Push, Newest, Suffix;
    EmitKeepsLog(h, e);
    EmitKeepsJobs(h, e);
    EmitKeepsKinds(h, e);
    PushLeavesNoneEmpty(h.perJob, e.jobId, e, h.maxHistory);
    PushLeavesNoneEmpty(h.perKind, e.kind, e, h.maxHistory);
  }

  lemma IndexAfterLimit(bucket: seq<Event>, h: History, limit: int, f: Filters)
    requires Indexes(bucket, h, f)
    ensures Indexes(Newest(bucket, AtLeastOne(limit)), Limited(h, limit), f)
  {
    hide Filter;
    var max := AtLeastOne(limit);
    var h' := Limited(h, limit);
    NewestIsSuffix(bucket, max);
    SuffixIsTransitive(Newest(bucket, max), bucket, Filter(h.log, f));
    NewestIsSuffix(h.events, max);
    FilterKeepsSuffix(h'.events, h.events, f);
    FilterIsShorter(h'.events, f);
    SuffixIsTransitive(Filter(h'.events, f), Filter(h.events, f), bucket);
    ShortSuffixSurvives(Filter(h'.events, f), bucket, max);
  }

  lemma TrimmedBucket(buckets: Buckets, max: int, key: string)
    requires max >= 1
    ensures Bucket(Trimmed(buckets, max), key) == Newest(Bucket(buckets, key), max)
    ensures NoneEmpty(Trimmed(buckets, max))
  {
  }

  lemma LimitKeepsLog(h: History, limit: int)
    requires LogConsistent(h)
    ensures LogConsistent(Limited(h, limit))
  {
    hide Suffix, Newest, Trimmed;
    NewestIsSuffix(h.events, AtLeastOne(limit));
    SuffixIsTransitive(Limited(h, limit).events, h.events, h.log);
  }

  lemma LimitKeepsBuckets(h: History, limit: int)
    requires JobsConsistent(h) && KindsConsistent(h)
    ensures JobsConsistent(Limited(h, limit)) && KindsConsistent(Limited(h, limit))
  {
    hide Indexes, Newest, Trimmed, Bucket;
    var max := AtLeastOne(limit);
    var h' := Limited(h, limit);
    forall job | job != "" ensures Indexes(Bucket(h'.perJob, job), h', OfJob(job)) {
      IndexAfterLimit(Bucket(h.perJob, job), h, limit, OfJob(job));
      TrimmedBucket(h.perJob, max, job);
    }
    forall kind ensures Indexes(Bucket(h'.perKind, kind), h', OfKind(kind)) {
      IndexAfterLimit(Bucket(h.perKind, kind), h, limit, OfKind(kind));
      TrimmedBucket(h.perKind, max, kind);
    }
    TrimmedBucket(h.perJob, max, "");
    NewestIsSuffix([], max);
  }

  lemma LimitKeepsConsistent(h: History, limit: int)
    requires Consistent(h)
    ensures Consistent(Limited(h, limit))
  {
    hide JobsConsistent, KindsConsistent, NoneEmpty, Newest, Suffix, Trimmed;
    LimitKeepsLog(h, limit);
    LimitKeepsBuckets(h, limit);
    TrimmedBucket(h.perJob, AtLeastOne(limit), "");
    TrimmedBucket(h.perKind, AtLeastOne(limit), "");
  }

  datatype Op = OpEmit(input: Input) | OpLimit(limit: int)

  ghost function Step(h: History, op: Op): History {
    match op
    case OpEmit(i) => Emitted(h, Event(h.last + 1, i.kind, i.jobId, i.childId, i.payload))
    case OpLimit(limit) => Limited(h, limit)
  }

  ghost function Run(h: History, ops: seq<Op>): History {
    if ops == [] then h else Step(Run(h, ops[..|ops| - 1]), ops[|ops| - 1])
  }

  /**
   Under any mix of emissions and limit changes the global history and every job and kind bucket are suffixes of
   the (selected) stream of all events, within the limit, and a bucket has whatever the global history still has.
   */
  lemma {:induction false} IndexesAgreeWithLog(limit: int, ops: seq<Op>)
    ensures Consistent(Run(History(0, AtLeastOne(limit), [], map[], map[], []), ops))
  {
    hide Consistent, Emitted, Limited;
    var start := History(0, AtLeastOne(limit), [], map[], map[], []);
    if ops == [] {
      EmptyIsConsistent(limit);
    } else {
      IndexesAgreeWithLog(limit, ops[..|ops| - 1]);
      var h := Run(start, ops[..|ops| - 1]);
      match ops[|ops| - 1]
      case OpEmit(i) => EmitKeepsConsistent(h, Event(h.last + 1, i.kind, i.jobId, i.childId, i.payload));
      case OpLimit(l) => LimitKeepsConsistent(h, l);
    }
  }

  // ---------------------------------------------------------------------------------------------
  // Reading
  // ---------------------------------------------------------------------------------------------

  lemma {:induction false} FilterTwice(a: seq<Event>, f: Filters)
    ensures Filter(Filter(a, OfJob(f.jobId)), f.(jobId := "")) == Filter(a, f)
  {
    if a != [] {
      var front, last := a[..|a| - 1], a[|a| - 1];
      FilterTwice(front, f);
      if Selected(OfJob(f.jobId), last) {
        FilterOneMore(Filter(front, OfJob(f.jobId)), last, f.(jobId := ""));
      }
    }
  }

  lemma {:induction false} ReversedIsPrefix(a: seq<Event>, b: seq<Event>)
    requires Suffix(a, b)
    ensures Reversed(a) <= Reversed(b)
    decreases |a|
  {
    if a != [] {
      assert a[|a| - 1] == b[|b| - 1];
      ReversedIsPrefix(a[..|a| - 1], b[..|b| - 1]);
    }
  }

  lemma WindowOfSuffix(a: seq<Event>, b: seq<Event>, f: Filters)
    requires Suffix(a, b)
    ensures f.limit.None? && !f.reverse ==> Suffix(ApplyWindow(a, f), ApplyWindow(b, f))
    ensures f.reverse ==> ApplyWindow(a, f) <= ApplyWindow(b, f)
  {
    hide Reversed;
    ReversedIsPrefix(a, b);
  }

  /**
   Whatever else is filtered, listing globally for a job shows the end of what listing the job's bucket shows.
   Newest first, one page is a prefix of the other, whatever its size.
   */
  lemma ListingJobsGloballyShowsTheEnd(h: History, f: Filters)
    requires Consistent(h) && f.jobId != ""
    ensures var global, own := Filter(h.events, f), Filter(Bucket(h.perJob, f.jobId), f.(jobId := ""));
            && Suffix(global, own)
            && (f.limit.None? && !f.reverse ==> Suffix(ApplyWindow(global, f), ApplyWindow(own, f)))
            && (f.reverse ==> ApplyWindow(global, f) <= ApplyWindow(own, f))
  {
    hide Filter, Selected, Suffix, ApplyWindow, Reversed;
    var bucket := Bucket(h.perJob, f.jobId);
    assert Indexes(bucket, h, OfJob(f.jobId));
    FilterKeepsSuffix(Filter(h.events, OfJob(f.jobId)), bucket, f.(jobId := ""));
    FilterTwice(h.events, f);
    WindowOfSuffix(Filter(h.events, f), Filter(bucket, f.(jobId := "")), f);
  }

  lemma ListingKindsGloballyShowsTheEnd(h: History, kind: string)
    requires Consistent(h)
    ensures Suffix(ApplyWindow(Filter(h.events, OfKind(kind)), OfKind(kind)), Bucket(h.perKind, kind))
  {
    assert Indexes(Bucket(h.perKind, kind), h, OfKind(kind));
  }

  function Since(from: int): Filters { ALL.(minSeq := Some(from)) }

  lemma {:induction false} SinceSelects(a: seq<Event>, first: int, from: int)
    requires forall i :: 0 <= i < |a| ==> a[i].seqNo == first + i
    ensures Filter(a, Since(from)) ==
      if from < first then a else if from < first + |a| then a[from - first + 1..] else []
  {
    if a != [] {
      SinceSelects(a[..|a| - 1], first, from);
    }
  }

  /** A reader that has seen the first `seen` events and asks for the rest gets all of it exactly
      when it is still retained. */
  lemma PollingMissesNothingIff(h: History, seen: nat)
    requires Consistent(h) && seen <= |h.log|
    ensures Filter(h.events, Since(seen)) == h.log[seen..] <==> |h.log| - seen <= |h.events|
  {
    hide JobsConsistent, KindsConsistent, Filter;
    var dropped := |h.log| - |h.events|;
    forall i | 0 <= i < |h.events| ensures h.events[i].seqNo == dropped + 1 + i {
      assert h.events[i] == h.log[dropped + i];
    }
    SinceSelects(h.events, dropped + 1, seen);
  }

  // ---------------------------------------------------------------------------------------------
  // What a listing shows
  // ---------------------------------------------------------------------------------------------

  /** The event is asked for: above the sequence number, of the job, of the child and of a kind given, where given. */
  predicate AskedFor(f: Filters, e: Event) {
    && (f.minSeq == None || e.seqNo > f.minSeq.value)
    && (f.jobId == "" || f.jobId == e.jobId)
    && (f.childId == "" || f.childId == e.childId)
    && (f.kinds == {} || e.kind in f.kinds)
  }

  ghost predicate Increasing(events: seq<Event>) {
    forall i, j :: 0 <= i < j < |events| ==> events[i].seqNo < events[j].seqNo
  }

  lemma {:induction false} FilterInNumbers(a: seq<Event>, f: Filters)
    requires Increasing(a)
    ensures Increasing(Filter(a, f)) && forall e :: e in Filter(a, f) <==> e in a && AskedFor(f, e)
  {
    FilterSelects(a, f);
    if a != [] {
      FilterInNumbers(a[..|a| - 1], f);
      var front := Filter(a[..|a| - 1], f);
      forall i | 0 <= i < |front| ensures front[i].seqNo < a[|a| - 1].seqNo {
        assert front[i] in front;
      }
    }
  }

  lemma {:induction false} ReversedAt(a: seq<Event>)
    ensures |Reversed(a)| == |a| && forall i :: 0 <= i < |a| ==> Reversed(a)[i] == a[|a| - 1 - i]
  {
    if a != [] {
      ReversedAt(a[..|a| - 1]);
    }
  }

  /**
   A listing shows retained events asked for, oldest first, or newest first when reversed. With a limit it shows that
   many, and only the far end is left out: the newest, or the oldest when reversed.
   */
  lemma ListingInNumbers(events: seq<Event>, f: Filters)
    requires Increasing(events)
    ensures var found := ApplyWindow(Filter(events, f), f);
            && (forall e :: e in found ==> e in events && AskedFor(f, e))
            && InOrder(found, f.reverse)
            && (f.limit.Some? ==> |found| <= if f.limit.value < 0 then 0 else f.limit.value)
            && (forall e :: e in events && AskedFor(f, e) && e !in found ==>
                  && f.limit.Some? && |found| == (if f.limit.value < 0 then 0 else f.limit.value)
                  && forall shown :: shown in found ==>
                       if f.reverse then shown.seqNo > e.seqNo else shown.seqNo < e.seqNo)
  {
    hide Filter, Reversed, AskedFor, Increasing;
    var a := Filter(events, f);
    FilterInNumbers(events, f);
    ReversedShowsAll(a);
    var ordered := if f.reverse then Reversed(a) else a;
    assert InOrder(ordered, f.reverse) by { OrderedEitherWay(a, f.reverse); }
    var found := ApplyWindow(a, f);
    assert found == ordered[..|found|];
    PrefixInOrder(ordered, f.reverse, |found|);
  }

  /** The numbers fall, or rise. */
  ghost predicate InOrder(events: seq<Event>, falling: bool) {
    forall i, j :: 0 <= i < j < |events| ==>
      if falling then events[i].seqNo > events[j].seqNo else events[i].seqNo < events[j].seqNo
  }

  lemma OrderedEitherWay(a: seq<Event>, reverse: bool)
    requires Increasing(a)
    ensures InOrder(if reverse then Reversed(a) else a, reverse)
  {
    ReversedAt(a);
  }

  /** What a cut leaves out lies beyond all it shows. */
  lemma PrefixInOrder(ordered: seq<Event>, falling: bool, n: nat)
    requires InOrder(ordered, falling) && n <= |ordered|
    ensures InOrder(ordered[..n], falling)
    ensures forall e, shown :: e in ordered && e !in ordered[..n] && shown in ordered[..n] ==>
              if falling then shown.seqNo > e.seqNo else shown.seqNo < e.seqNo
  {
    forall e, shown | e in ordered && e !in ordered[..n] && shown in ordered[..n]
      ensures if falling then shown.seqNo > e.seqNo else shown.seqNo < e.seqNo {
      var k :| 0 <= k < |ordered| && ordered[k] == e;
      var j :| 0 <= j < n && ordered[..n][j] == shown;
      assert forall i :: 0 <= i < n ==> ordered[..n][i] in ordered[..n] && ordered[..n][i] == ordered[i];
      assert k >= n && ordered[j] == shown;
    }
  }

  lemma SuffixIsIncreasing(a: seq<Event>, b: seq<Event>)
    requires Suffix(a, b) && Increasing(b)
    ensures Increasing(a)
  {
    forall i, j | 0 <= i < j < |a| ensures a[i].seqNo < a[j].seqNo {
      assert a[i] == b[|b| - |a| + i] && a[j] == b[|b| - |a| + j];
    }
  }

  lemma NumberedIsIncreasing(log: seq<Event>)
    requires Numbered(log)
    ensures Increasing(log)
  {
  }

  /** The retained events and every bucket are in the order of their numbers. */
  lemma RetainedIsIncreasing(h: History, job: string)
    requires Consistent(h)
    ensures Increasing(h.events) && Increasing(Bucket(h.perJob, job))
  {
    hide Filter, Bucket, AskedFor, Suffix, Numbered, Increasing, KindsConsistent, NoneEmpty;
    NumberedIsIncreasing(h.log);
    SuffixIsIncreasing(h.events, h.log);
    if job != "" {
      FilterInNumbers(h.log, OfJob(job));
      assert Indexes(Bucket(h.perJob, job), h, OfJob(job));
      SuffixIsIncreasing(Bucket(h.perJob, job), Filter(h.log, OfJob(job)));
    } else {
      assert Increasing([]) by { NumberedIsIncreasing([]); }
    }
  }
}
