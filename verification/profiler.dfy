/**
 * The action profiler: per-key event counters and accumulated durations, a
 * per-key cap on how many events' durations are accumulated (itself lowered
 * as events arrive), and a parallel mode in which non-synchronous logs are
 * queued under `<key>_parallel` and merged when parallel mode ends.
 *
 * Durations are `process.hrtime` pairs `[seconds, nanoseconds]`; every clock
 * reading is a parameter. The state's meaning is given by pure functions on
 * a `Books` value; the `ActionLog` class updates its fields in place and
 * states its new state as such a function of its old one.
 */
module Profiler {
  import opened Wrappers
  import JsMap

  /** An `hrtime` pair `[seconds, nanoseconds]`. */
  type Dt = (int, int)

  /** `sumdt`: componentwise, with no carry from nanoseconds into seconds. */
  function SumDt(dt1: Dt, dt2: Dt): Dt
  {
    (dt1.0 + dt2.0, dt1.1 + dt2.1)
  }

  /** `getdt`: componentwise difference, again without borrowing. */
  function GetDt(t1: Dt, t2: Dt): Dt
  {
    (t2.0 - t1.0, t2.1 - t1.1)
  }

  /** Adding the difference of two readings to the first gives the second, and back. */
  lemma DtRoundTrip(t1: Dt, t2: Dt, dt: Dt)
    ensures SumDt(t1, GetDt(t1, t2)) == t2
    ensures GetDt(t1, SumDt(t1, dt)) == dt
    ensures SumDt(dt, t1) == SumDt(t1, dt)
  {
  }

  /** `x | 0` / `~~x` on an integer: the signed 32-bit integer congruent to it. */
  function Int32(x: int): (r: int)
    ensures -0x8000_0000 <= r < 0x8000_0000
    ensures (x - r) % 0x1_0000_0000 == 0
  {
    (x + 0x8000_0000) % 0x1_0000_0000 - 0x8000_0000
  }

  /** Counts that already fit in 32 bits pass unchanged. */
  lemma Int32Identity(x: int)
    requires -0x8000_0000 <= x < 0x8000_0000
    ensures Int32(x) == x
  {
  }

  const RttKey: string := "osu_network_rtt"

  /** `LIMITED_EVENTS` as the module loads. */
  const InitialLimits: map<string, int> := map[RttKey := 4]

  const ParallelSuffix: string := "_parallel"

  const ParallelLogError: string := "Profiler in parallel mode: Use logSync() if not timing"

  /** What the engine throws when `sumdt` or `getdt` index `null` or `undefined`. */
  const TypeError: string := "TypeError"

  function Lookup<K, V>(m: map<K, V>, key: K): (r: Option<V>)
    ensures r.Some? <==> key in m
  {
    if key in m then Some(m[key]) else None
  }

  function Min(a: int, b: int): int
  {
    if a <= b then a else b
  }

  /** How one batch of events for a key is booked against its duration. */
  datatype Action =
    | First  // the key is new: its duration is set
    | Add    // the batch's duration is added to the key's
    | Skip   // the key is past its limit: its duration is left alone

  datatype Tally = Tally(count: int, action: Action, limit: Option<int>)

  /**
   * The counter and limit bookkeeping shared by `logN` and the parallel
   * merge: the counter grows by `n`; a limited key's duration accumulates
   * only while the new count stays within the limit, and the first batch
   * to overrun it lowers the limit to the count before that batch.
   */
  function TallyOf(prev: Option<int>, n: int, limit: Option<int>): (t: Tally)
    ensures t.count == (if prev.Some? then prev.value else 0) + n
    ensures t.action == First <==> prev.None?
    ensures t.action == Add <==> prev.Some? && (limit.None? || prev.value + n <= limit.value)
    ensures t.limit.Some? <==> limit.Some?
    ensures t.limit != limit <==> prev.Some? && limit.Some? && t.action == Skip && prev.value < limit.value
    ensures t.limit != limit ==> t.limit == prev
  {
    if prev.None? then Tally(n, First, limit)
    else if limit.None? || prev.value + n <= limit.value then Tally(prev.value + n, Add, limit)
    else if prev.value <= limit.value then Tally(prev.value + n, Skip, Some(prev.value))
    else Tally(prev.value + n, Skip, limit)
  }

  /** The number of events a key's duration covers, after one batch. */
  function TimedAfter(timed: int, action: Action, n: int): int
  {
    match action
    case First => n
    case Add => timed + n
    case Skip => timed
  }

  /** What `getAverageTime` divides a key's duration by. */
  function Divisor(count: int, limit: Option<int>): int
  {
    if limit.None? then count else Min(count, limit.value)
  }

  /**
   * The invariant the limit bookkeeping keeps between a key's count, the
   * number of events its duration covers, and its limit: the divisor is
   * exactly the number of events timed, except after a first batch that
   * alone overran the limit.
   */
  predicate Accounted(count: int, timed: int, limit: Option<int>)
  {
    timed == Divisor(count, limit) || (limit.Some? && limit.value < timed <= count)
  }

  /** One batch keeps counts and limits positive and the bookkeeping accounted for. */
  lemma TallyAccounted(prev: Option<int>, timed: int, n: int, limit: Option<int>)
    requires n > 0 && (limit.Some? ==> limit.value > 0)
    requires prev.Some? ==> prev.value > 0 && Accounted(prev.value, timed, limit)
    ensures var t := TallyOf(prev, n, limit);
      && t.count > 0
      && (t.limit.Some? ==> t.limit.value > 0)
      && Accounted(t.count, TimedAfter(timed, t.action, n), t.limit)
  {
  }

  /** While no first batch overran the limit, the divisor stays the number of events timed. */
  lemma TallyExact(prev: Option<int>, timed: int, n: int, limit: Option<int>)
    requires n > 0 && (limit.Some? ==> limit.value > 0)
    requires prev.Some? ==> timed == Divisor(prev.value, limit)
    requires prev.None? && limit.Some? ==> n <= limit.value
    ensures var t := TallyOf(prev, n, limit);
      TimedAfter(timed, t.action, n) == Divisor(t.count, t.limit)
  {
  }

  /** The divisor is positive, and it is the number of events timed unless the limit was overrun. */
  lemma DivisorIsTimed(count: int, timed: int, limit: Option<int>)
    requires count > 0 && (limit.Some? ==> limit.value > 0)
    requires Accounted(count, timed, limit)
    ensures Divisor(count, limit) > 0
    ensures limit.None? || timed <= limit.value ==> Divisor(count, limit) == timed
  {
  }

  /** A queued parallel entry; `startTime` comes from the first log, `endTime` from the last. */
  datatype Pending = Pending(count: int, startTime: Option<Dt>, endTime: Option<Dt>)

  type Queue = JsMap.Entries<string, Pending>

  /** Every queued entry counts at least one event and has been ended. */
  predicate QueueValid(q: Queue)
  {
    && JsMap.UniqueKeys(q)
    && forall p :: p in q ==> p.1.count > 0 && p.1.endTime.Some?
  }

  /** `getdt(startTime, endTime)`, which throws when either is missing. */
  function Span(p: Pending): (r: Result<Option<Dt>, string>)
    ensures r.Success? <==> p.startTime.Some? && p.endTime.Some?
    ensures r.Success? ==> r.value == Some(GetDt(p.startTime.value, p.endTime.value))
  {
    if p.startTime.None? || p.endTime.None? then Failure(TypeError)
    else Success(Some(GetDt(p.startTime.value, p.endTime.value)))
  }

  /**
   * The profiler's state: counters, durations (`None` is a stored `null`),
   * the current limits, the parallel queue (`None` outside parallel mode),
   * and, for the invariant only, how many events each key's duration covers.
   */
  datatype Books = Books(
    counters: map<string, int>,
    times: map<string, Option<Dt>>,
    limits: map<string, int>,
    queue: Option<Queue>,
    timed: map<string, int>)

  const Initial: Books := Books(map[], map[], InitialLimits, None, map[])

  predicate BooksValid(b: Books)
  {
    && (forall k :: k in b.limits ==> b.limits[k] > 0)
    && (forall k :: k in b.counters ==>
          k in b.timed && b.counters[k] > 0 && Accounted(b.counters[k], b.timed[k], Lookup(b.limits, k)))
    && (b.queue.Some? ==> QueueValid(b.queue.value))
  }

  lemma InitialValid()
    ensures BooksValid(Initial)
  {
  }

  /** The counter, limit and coverage update of one batch; durations are untouched. */
  function Counted(b: Books, key: string, n: int): (r: (Books, Action))
  {
    var t := TallyOf(Lookup(b.counters, key), n, Lookup(b.limits, key));
    (b.(counters := b.counters[key := t.count],
        limits := if t.limit.Some? then b.limits[key := t.limit.value] else b.limits,
        timed := b.timed[key := TimedAfter(if key in b.timed then b.timed[key] else 0, t.action, n)]),
     t.action)
  }

  /** The duration update of one batch, once it has been counted as `action`. */
  function Timed(b: Books, key: string, action: Action, dt: Result<Option<Dt>, string>): (r: (Books, Outcome<string>))
  {
    match action
    case Skip => (b, Pass)
    case First =>
      if dt.Failure? then (b, Fail(dt.error)) else (b.(times := b.times[key := dt.value]), Pass)
    case Add =>
      if dt.Failure? then (b, Fail(dt.error))
      else if dt.value.None? then (b.(times := b.times[key := None]), Pass)
      else if key in b.times && b.times[key].Some? then
        (b.(times := b.times[key := Some(SumDt(b.times[key].value, dt.value.value))]), Pass)
      else (b, Fail(TypeError))
  }

  /**
   * Books `n` events for `key` with the duration `dt` (a thrown `getdt` is
   * a `Failure`). The counter and limit change before the duration is
   * touched, so a throw leaves them changed and the duration as it was.
   */
  function Accumulate(b: Books, key: string, n: int, dt: Result<Option<Dt>, string>): (r: (Books, Outcome<string>))
  {
    var (b1, action) := Counted(b, key, n);
    Timed(b1, key, action, dt)
  }

  /** Counting a batch keeps the books valid and touches only the batch's key. */
  lemma CountedValid(b: Books, key: string, n: int)
    requires BooksValid(b) && n > 0
    ensures var r := Counted(b, key, n).0;
      && BooksValid(r)
      && r.times == b.times && r.queue == b.queue
      && (forall k :: k != key ==> Lookup(r.counters, k) == Lookup(b.counters, k))
  {
    var r := Counted(b, key, n).0;
    var timed := if key in b.timed then b.timed[key] else 0;
    TallyAccounted(Lookup(b.counters, key), timed, n, Lookup(b.limits, key));
    forall k | k in r.counters
      ensures k in r.timed && r.counters[k] > 0 && Accounted(r.counters[k], r.timed[k], Lookup(r.limits, k))
    {
      if k != key {
        assert r.counters[k] == b.counters[k] && r.timed[k] == b.timed[k];
        assert Lookup(r.limits, k) == Lookup(b.limits, k);
      }
    }
  }

  /** The validity of the books does not depend on the durations. */
  lemma TimedValid(b: Books, key: string, action: Action, dt: Result<Option<Dt>, string>)
    requires BooksValid(b)
    ensures var r := Timed(b, key, action, dt).0;
      BooksValid(r) && r.queue == b.queue && r.counters == b.counters
      && forall k :: k != key ==> Lookup(r.times, k) == Lookup(b.times, k)
  {
  }

  /** Booking a batch keeps the books valid, and touches only the batch's key. */
  lemma AccumulateValid(b: Books, key: string, n: int, dt: Result<Option<Dt>, string>)
    requires BooksValid(b) && n > 0
    ensures var r := Accumulate(b, key, n, dt).0;
      && BooksValid(r)
      && r.queue == b.queue
      && (forall k :: k != key ==> Lookup(r.counters, k) == Lookup(b.counters, k) && Lookup(r.times, k) == Lookup(b.times, k))
  {
    CountedValid(b, key, n);
    var (b1, action) := Counted(b, key, n);
    TimedValid(b1, key, action, dt);
  }

  /** The counter after a batch: set to `n` for a new key, else increased by `n`. */
  lemma AccumulateCount(b: Books, key: string, n: int, dt: Result<Option<Dt>, string>)
    ensures var r := Accumulate(b, key, n, dt).0;
      r.counters[key] == if key in b.counters then b.counters[key] + n else n
  {
  }

  /**
   * The first batch of a key sets its duration to the batch's; later
   * batches add theirs while within the limit and leave it alone after.
   */
  lemma AccumulateTime(b: Books, key: string, n: int, dt: Option<Dt>)
    ensures var (r, o) := Accumulate(b, key, n, Success(dt));
      && (key !in b.counters ==> o.Pass? && r.times[key] == dt)
      && (key in b.counters && key in b.limits && b.counters[key] + n > b.limits[key] ==> o.Pass? && r.times == b.times)
      && (key in b.counters && (key !in b.limits || b.counters[key] + n <= b.limits[key]) && dt.None? ==>
            o.Pass? && r.times[key] == None)
      && (key in b.counters && (key !in b.limits || b.counters[key] + n <= b.limits[key]) && dt.Some? ==>
            if key in b.times && b.times[key].Some?
            then o.Pass? && r.times[key] == Some(SumDt(b.times[key].value, dt.value))
            else o == Fail(TypeError) && r.times == b.times)
  {
  }

  /** Once a limited key's count exceeds its limit, its duration no longer changes. */
  lemma PastLimitFrozen(b: Books, key: string, n: int, dt: Result<Option<Dt>, string>)
    requires BooksValid(b) && n > 0
    requires key in b.counters && key in b.limits && b.counters[key] > b.limits[key]
    ensures var r := Accumulate(b, key, n, dt).0;
      r.times == b.times && r.limits == b.limits && r.timed == b.timed
  {
  }

  /** `parallelQueued` after a non-synchronous log of `n` events in parallel mode. */
  function Enqueued(q: Queue, key: string, n: int, t0: Option<Dt>, now: Dt): Queue
  {
    JsMap.Set(q, key, Bumped(JsMap.Get(q, key), n, t0, now))
  }

  /** A key's queued entry after one more log: created on the first, then counted and re-ended. */
  function Bumped(prev: Option<Pending>, n: int, t0: Option<Dt>, now: Dt): Pending
  {
    if prev.None? then Pending(n, t0, Some(now))
    else Pending(prev.value.count + n, prev.value.startTime, Some(now))
  }

  /**
   * Queuing replaces the key's entry by its bumped version and leaves every
   * other entry alone.
   */
  lemma EnqueuedEntry(q: Queue, key: string, n: int, t0: Option<Dt>, now: Dt, other: string)
    ensures JsMap.Get(Enqueued(q, key, n, t0, now), key) == Some(Bumped(JsMap.Get(q, key), n, t0, now))
    ensures other != key ==> JsMap.Get(Enqueued(q, key, n, t0, now), other) == JsMap.Get(q, other)
  {
    JsMap.SetGet(q, key, Bumped(JsMap.Get(q, key), n, t0, now), other);
  }

  /**
   * The first log of a key creates its entry with `n` events and `t0` as
   * start; later logs add `n`, keep the first start, and all end at `now`.
   */
  lemma BumpedEntry(prev: Option<Pending>, n: int, t0: Option<Dt>, now: Dt)
    ensures var p := Bumped(prev, n, t0, now);
      && p.count == (if prev.None? then 0 else prev.value.count) + n
      && p.startTime == (if prev.None? then t0 else prev.value.startTime)
      && p.endTime == Some(now)
  {
  }

  lemma EnqueuedValid(q: Queue, key: string, n: int, t0: Option<Dt>, now: Dt)
    requires QueueValid(q) && n > 0
    ensures QueueValid(Enqueued(q, key, n, t0, now))
  {
    var prev := JsMap.Get(q, key);
    var entry := Bumped(prev, n, t0, now);
    if prev.Some? {
      var i :| 0 <= i < |q| && q[i].0 == key && q[i].1 == prev.value;
      assert q[i] in q;
    }
    assert entry.count > 0 && entry.endTime.Some?;
    JsMap.SetUnique(q, key, entry);
    JsMap.SetElements(q, key, entry);
  }

  /** `logN(key, nEvents, t0, forceSync)`; `now` is `process.hrtime()` and `elapsed` is `process.hrtime(t0)`. */
  function AfterLogN(b: Books, key: string, nEvents: int, t0: Option<Dt>, forceSync: bool, now: Dt, elapsed: Dt)
    : (r: (Books, Outcome<string>))
  {
    var n := Int32(nEvents);
    if n <= 0 then (b, Pass)
    else if b.queue.Some? && !forceSync then
      (b.(queue := Some(Enqueued(b.queue.value, key + ParallelSuffix, n, t0, now))), Pass)
    else Accumulate(b, key, n, Success(if t0.Some? then Some(elapsed) else None))
  }

  /** A batch that truncates to no events changes nothing. */
  lemma LogNothing(b: Books, key: string, nEvents: int, t0: Option<Dt>, forceSync: bool, now: Dt, elapsed: Dt)
    requires Int32(nEvents) <= 0
    ensures AfterLogN(b, key, nEvents, t0, forceSync, now, elapsed) == (b, Pass)
  {
  }

  /**
   * In parallel mode a log that is not forced synchronous only queues:
   * counters, durations and limits are untouched, and the queued entry is
   * the one under `key + "_parallel"`.
   */
  lemma LogNParallel(b: Books, key: string, nEvents: int, t0: Option<Dt>, forceSync: bool, now: Dt, elapsed: Dt)
    requires b.queue.Some? && !forceSync && Int32(nEvents) > 0
    ensures var (r, o) := AfterLogN(b, key, nEvents, t0, forceSync, now, elapsed);
      && o.Pass? && r.counters == b.counters && r.times == b.times && r.limits == b.limits
      && r.queue == Some(Enqueued(b.queue.value, key + ParallelSuffix, Int32(nEvents), t0, now))
  {
  }

  lemma LogNValid(b: Books, key: string, nEvents: int, t0: Option<Dt>, forceSync: bool, now: Dt, elapsed: Dt)
    requires BooksValid(b)
    ensures BooksValid(AfterLogN(b, key, nEvents, t0, forceSync, now, elapsed).0)
  {
    var n := Int32(nEvents);
    if n > 0 {
      if b.queue.Some? && !forceSync {
        EnqueuedValid(b.queue.value, key + ParallelSuffix, n, t0, now);
      } else {
        AccumulateValid(b, key, n, Success(if t0.Some? then Some(elapsed) else None));
      }
    }
  }

  /** `log(key, t0)`: one event, refused in parallel mode when there is nothing to time. */
  function AfterLog(b: Books, key: string, t0: Option<Dt>, now: Dt, elapsed: Dt): (r: (Books, Outcome<string>))
    ensures t0.None? && b.queue.Some? ==> r == (b, Fail(ParallelLogError))
  {
    if t0.None? && b.queue.Some? then (b, Fail(ParallelLogError))
    else AfterLogN(b, key, 1, t0, false, now, elapsed)
  }

  /**
   * Outside parallel mode a log without a start time still counts the
   * event, but a key that already had a duration now has none (`null`).
   */
  lemma LogWithoutStart(b: Books, key: string, now: Dt, elapsed: Dt)
    requires b.queue.None? && key in b.counters
    requires key !in b.limits || b.counters[key] + 1 <= b.limits[key]
    ensures var (r, o) := AfterLog(b, key, None, now, elapsed);
      o.Pass? && r.counters[key] == b.counters[key] + 1 && r.times[key] == None
  {
  }

  /** `logSync(key, t0)`: one event, never queued. */
  function AfterLogSync(b: Books, key: string, t0: Option<Dt>, now: Dt, elapsed: Dt): (r: (Books, Outcome<string>))
    ensures r.0.queue == b.queue
  {
    AfterLogN(b, key, 1, t0, true, now, elapsed)
  }

  /** Merges one queued entry; a throw is caught, reported, and the merge goes on. */
  function AfterMerge(b: Books, entry: (string, Pending)): (Books, Outcome<string>)
  {
    Accumulate(b, entry.0, entry.1.count, Span(entry.1))
  }

  /** Merges the queued entries in order; the second part lists the keys whose merge threw. */
  function AfterMergeAll(b: Books, q: Queue): (Books, seq<string>)
  {
    if q == [] then (b, [])
    else
      var (b1, bad) := AfterMergeAll(b, q[..|q| - 1]);
      var (b2, o) := AfterMerge(b1, q[|q| - 1]);
      (b2, if o.Fail? then bad + [q[|q| - 1].0] else bad)
  }

  /** Merging one more entry of the queue. */
  lemma MergeAllStep(b: Books, q: Queue, i: nat)
    requires i < |q|
    ensures var (b1, bad) := AfterMergeAll(b, q[..i]);
      var (b2, o) := AfterMerge(b1, q[i]);
      AfterMergeAll(b, q[..i + 1]) == (b2, if o.Fail? then bad + [q[i].0] else bad)
  {
    assert q[..i + 1][..i] == q[..i];
  }

  /** A key's counter once a queued entry (if any) for it has been merged. */
  function MergedCount(prev: Option<int>, p: Option<Pending>): Option<int>
  {
    if p.None? then prev
    else if prev.None? then Some(p.value.count)
    else Some(prev.value + p.value.count)
  }

  /**
   * Merging a queue with distinct keys adds each entry's count to its key's
   * counter (or starts the counter) and leaves keys not in the queue as
   * they were; the queue itself is not touched.
   */
  lemma {:induction false} MergeAllCounts(b: Books, q: Queue, k: string)
    requires JsMap.UniqueKeys(q)
    ensures var r := AfterMergeAll(b, q).0;
      && Lookup(r.counters, k) == MergedCount(Lookup(b.counters, k), JsMap.Get(q, k))
      && (JsMap.Get(q, k).None? ==> Lookup(r.times, k) == Lookup(b.times, k))
      && r.queue == b.queue
    decreases |q|
  {
    if q != [] {
      var init, last := q[..|q| - 1], q[|q| - 1];
      assert JsMap.UniqueKeys(init);
      MergeAllCounts(b, init, k);
      JsMap.GetLast(q, k);
      MergeOneCount(AfterMergeAll(b, init).0, last, k, Lookup(b.counters, k), JsMap.Get(init, k));
    }
  }

  /** Merging one entry, for a key whose count so far is `MergedCount(prev, p)`. */
  lemma MergeOneCount(b: Books, entry: (string, Pending), k: string, prev: Option<int>, p: Option<Pending>)
    requires Lookup(b.counters, k) == MergedCount(prev, p)
    requires k == entry.0 ==> p.None?
    ensures var r := AfterMerge(b, entry).0;
      && Lookup(r.counters, k) == MergedCount(prev, if k == entry.0 then Some(entry.1) else p)
      && (k != entry.0 ==> Lookup(r.times, k) == Lookup(b.times, k))
      && r.queue == b.queue
  {
    AccumulateLookup(b, entry.0, entry.1.count, Span(entry.1), k);
  }

  /** A batch changes only its own key's counter and duration, and not the queue. */
  lemma AccumulateLookup(b: Books, key: string, n: int, dt: Result<Option<Dt>, string>, k: string)
    ensures var r := Accumulate(b, key, n, dt).0;
      && Lookup(r.counters, k) == (if k != key then Lookup(b.counters, k)
                                   else if key in b.counters then Some(b.counters[key] + n) else Some(n))
      && (k != key ==> Lookup(r.times, k) == Lookup(b.times, k))
      && r.queue == b.queue
  {
  }

  lemma {:induction false} MergeAllValid(b: Books, q: Queue)
    requires BooksValid(b)
    requires forall p :: p in q ==> p.1.count > 0
    ensures BooksValid(AfterMergeAll(b, q).0)
    decreases |q|
  {
    if q != [] {
      assert forall p :: p in q[..|q| - 1] ==> p in q;
      MergeAllValid(b, q[..|q| - 1]);
      assert q[|q| - 1] in q;
      var b1 := AfterMergeAll(b, q[..|q| - 1]).0;
      AccumulateValid(b1, q[|q| - 1].0, q[|q| - 1].1.count, Span(q[|q| - 1].1));
    }
  }

  /**
   * `setParallel(value)`: leaving parallel mode merges the queue; the new
   * mode starts with an empty queue or none. Entering it while already in
   * it drops the queue unmerged.
   */
  function AfterSetParallel(b: Books, value: bool): (r: (Books, seq<string>))
    ensures r.0.queue == if value then Some([]) else None
    ensures b.queue.None? || value ==> r == (b.(queue := r.0.queue), [])
  {
    var (b1, bad) := if b.queue.Some? && !value then AfterMergeAll(b, b.queue.value) else (b, []);
    (b1.(queue := if value then Some([]) else None), bad)
  }

  lemma SetParallelValid(b: Books, value: bool)
    requires BooksValid(b)
    ensures BooksValid(AfterSetParallel(b, value).0)
  {
    if b.queue.Some? && !value {
      MergeAllValid(b, b.queue.value);
    }
  }

  /** `logTime(key, dt)`: the duration is replaced, nothing else changes. */
  function AfterLogTime(b: Books, key: string, dt: Option<Dt>): (r: Books)
    ensures key in r.times && r.times[key] == dt && r.counters == b.counters && r.limits == b.limits
    ensures forall k :: k != key ==> Lookup(r.times, k) == Lookup(b.times, k)
  {
    b.(times := b.times[key := dt])
  }

  lemma LogTimeValid(b: Books, key: string, dt: Option<Dt>)
    requires BooksValid(b)
    ensures BooksValid(AfterLogTime(b, key, dt))
  {
  }

  /** `getTime(key)`: throws for a key never timed; `null` for a `null` duration or a limited key. */
  function GetTime(b: Books, key: string): (r: Result<Option<Dt>, string>)
    ensures r.Failure? <==> key !in b.times
    ensures r.Success? ==> (r.value.None? <==> b.times[key].None? || key in b.limits)
    ensures r.Success? && r.value.Some? ==> Some(r.value.value) == b.times[key]
  {
    if key !in b.times then Failure("key " + key + " not found")
    else if b.times[key].None? || key in b.limits then Success(None)
    else Success(b.times[key])
  }

  /**
   * `getAverageTime(key)`, before the conversion to milliseconds: the
   * duration and the count it is divided by. Throws for a key missing from
   * the counters or the durations; `null` for a `null` duration.
   */
  function GetAverageTime(b: Books, key: string): (r: Result<Option<(Dt, int)>, string>)
    ensures r.Failure? <==> key !in b.counters || key !in b.times
    ensures r.Success? ==> (r.value.None? <==> b.times[key].None?)
    ensures r.Success? && r.value.Some? ==> Some(r.value.value.0) == b.times[key]
  {
    if key !in b.counters || key !in b.times then Failure("key " + key + " not found")
    else if b.times[key].None? then Success(None)
    else Success(Some((b.times[key].value, Divisor(b.counters[key], Lookup(b.limits, key)))))
  }

  /**
   * In valid books the average never divides by zero, and it divides by
   * exactly the number of events the duration covers unless a first batch
   * alone overran the key's limit.
   */
  lemma AverageDivisor(b: Books, key: string)
    requires BooksValid(b)
    requires GetAverageTime(b, key).Success? && GetAverageTime(b, key).value.Some?
    ensures GetAverageTime(b, key).value.value.1 > 0
    ensures key !in b.limits || b.timed[key] <= b.limits[key] ==>
      GetAverageTime(b, key).value.value.1 == b.timed[key]
  {
    DivisorIsTimed(b.counters[key], b.timed[key], Lookup(b.limits, key));
  }

  /** The profiler (`ActionLog`); the module-level `LIMITED_EVENTS` is the field `limits`. */
  class ActionLog {
    var counters: map<string, int>
    var times: map<string, Option<Dt>>
    var limits: map<string, int>
    var parallelQueued: Option<Queue>
    /** How many events each key's duration covers. */
    ghost var timed: map<string, int>

    ghost function State(): Books
      reads this
    {
      Books(counters, times, limits, parallelQueued, timed)
    }

    ghost predicate Valid()
      reads this
    {
      BooksValid(State())
    }

    constructor ()
      ensures State() == Initial && Valid()
    {
      counters := map[];
      times := map[];
      limits := InitialLimits;
      parallelQueued := None;
      timed := map[];
      InitialValid();
    }

    /** The counter and duration update of `logN` and of one merged entry. */
    method Book(key: string, n: int, dt: Result<Option<Dt>, string>) returns (outcome: Outcome<string>)
      requires Valid() && n > 0
      modifies this
      ensures (State(), outcome) == Accumulate(old(State()), key, n, dt)
      ensures Valid()
    {
      AccumulateValid(State(), key, n, dt);
      var prev := if key in counters then Some(counters[key]) else None;
      var t := TallyOf(prev, n, Lookup(limits, key));
      counters := counters[key := t.count];
      if t.limit.Some? {
        limits := limits[key := t.limit.value];
      }
      timed := timed[key := TimedAfter(if key in timed then timed[key] else 0, t.action, n)];
      outcome := Pass;
      match t.action {
        case Skip =>
        case First =>
          if dt.Failure? {
            outcome := Fail(dt.error);
          } else {
            times := times[key := dt.value];
          }
        case Add =>
          if dt.Failure? {
            outcome := Fail(dt.error);
          } else if dt.value.None? {
            times := times[key := None];
          } else if key in times && times[key].Some? {
            times := times[key := Some(SumDt(times[key].value, dt.value.value))];
          } else {
            outcome := Fail(TypeError);
          }
      }
    }

    method LogN(key: string, nEvents: int, t0: Option<Dt>, forceSync: bool, now: Dt, elapsed: Dt)
      returns (outcome: Outcome<string>)
      requires Valid()
      modifies this
      ensures (State(), outcome) == AfterLogN(old(State()), key, nEvents, t0, forceSync, now, elapsed)
      ensures Valid()
    {
      var n := Int32(nEvents);
      if n <= 0 {
        return Pass;
      }
      if parallelQueued.Some? && !forceSync {
        EnqueuedValid(parallelQueued.value, key + ParallelSuffix, n, t0, now);
        parallelQueued := Some(Enqueued(parallelQueued.value, key + ParallelSuffix, n, t0, now));
        outcome := Pass;
      } else {
        var dt := if t0.Some? then Some(elapsed) else None;
        outcome := Book(key, n, Success(dt));
      }
    }

    method Log(key: string, t0: Option<Dt>, now: Dt, elapsed: Dt) returns (outcome: Outcome<string>)
      requires Valid()
      modifies this
      ensures (State(), outcome) == AfterLog(old(State()), key, t0, now, elapsed)
      ensures Valid()
    {
      if t0.None? && parallelQueued.Some? {
        return Fail(ParallelLogError);
      }
      outcome := LogN(key, 1, t0, false, now, elapsed);
    }

    method LogSync(key: string, t0: Option<Dt>, now: Dt, elapsed: Dt) returns (outcome: Outcome<string>)
      requires Valid()
      modifies this
      ensures (State(), outcome) == AfterLogSync(old(State()), key, t0, now, elapsed)
      ensures Valid()
    {
      outcome := LogN(key, 1, t0, true, now, elapsed);
    }

    method LogTime(key: string, dt: Option<Dt>)
      requires Valid()
      modifies this
      ensures State() == AfterLogTime(old(State()), key, dt)
      ensures Valid()
    {
      LogTimeValid(State(), key, dt);
      times := times[key := dt];
    }

    /** `setParallel(value)`; `badKeys` are the keys whose merge threw, in order. */
    method SetParallel(value: bool) returns (badKeys: seq<string>)
      requires Valid()
      modifies this
      ensures (State(), badKeys) == AfterSetParallel(old(State()), value)
      ensures Valid()
    {
      SetParallelValid(State(), value);
      badKeys := [];
      if parallelQueued.Some? && !value {
        var q := parallelQueued.value;
        var i := 0;
        while i < |q|
          invariant 0 <= i <= |q| && Valid() && parallelQueued == Some(q)
          invariant (State(), badKeys) == AfterMergeAll(old(State()), q[..i])
        {
          MergeAllStep(old(State()), q, i);
          assert q[i] in q;
          var outcome := Book(q[i].0, q[i].1.count, Span(q[i].1));
          if outcome.Fail? {
            badKeys := badKeys + [q[i].0];
          }
          i := i + 1;
        }
        assert q[..|q|] == q;
      }
      parallelQueued := if value then Some([]) else None;
    }
  }
}
