// The adapter that turns GenAI log records into spans (internal/otlp/logs.go), proved against the
// queue of module LogQueue.
module LogsAdapter {
  import opened Prelude
  import opened Seqs
  import opened LogQueue

  datatype Kind = Ignored | Request | Response

  // A decoded record; `kind` and `key` are the answers of its attribute checks, `observed` and
  // `time` its two unsigned 64-bit timestamps, `now` the clock when it is reached.
  datatype LogRecord = LogRecord(kind: Kind, key: Key, attrs: map<string, string>, observed: nat, time: nat, now: int)

  const MAX_INT64 := 0x7FFF_FFFF_FFFF_FFFF

  function Stamp(r: LogRecord): int {
    if r.observed == 0 then r.time else r.observed
  }

  datatype RawSpan = RawSpan(startNs: int, endNs: int, statusCode: int, attrs: map<string, string>)

  // Times, attributes and status of rawLogSpan: the response's attributes win.
  function RawLogSpan(response: LogRecord, request: Option<Pending>): RawSpan {
    var time := Stamp(response);
    var start0 := if request.Some? then request.value.time else time;
    var start := if start0 == 0 then time else start0;
    var end := if time == 0 then start else time;
    var merged := (if request.Some? then request.value.attrs else map[]) + response.attrs;
    var attrs := (merged - {"event.name"})["spanbox.source" := "otlp-logs"];
    RawSpan(Min(start, end), Max(start, end), if "error.type" in attrs then 2 else 0, attrs)
  }

  class LogsAdapter {
    var pending: Buckets
    var pendingCount: int
    var nextOrder: nat
    ghost var queue: Queue

    ghost predicate Valid()
      reads this
    {
      && Represents(pending, queue)
      && pendingCount == |queue| <= MAX_PENDING
    }

    ghost predicate Clocked(now: int)
      reads this
    {
      Ordered(queue, nextOrder, now)
    }

    constructor ()
      ensures Valid() && queue == [] && nextOrder == 0
    {
      pending, pendingCount, nextOrder, queue := map[], 0, 0, [];
    }

    // Scans the heads of all buckets for the earliest.
    method OldestHead(pending: Buckets, ghost q: Queue, ghost nextOrder: nat, ghost now: int) returns (oldestKey: Key)
      requires Represents(pending, q) && Ordered(q, nextOrder, now) && q != []
      ensures oldestKey == q[0].key
    {
      var oldest, found := Pending(Key("", ""), map[], 0, 0, 0), false;
      oldestKey := oldest.key;
      HeadOfBucket(pending, q);
      var remaining := pending.Keys;
      while remaining != {}
        invariant remaining <= pending.Keys
        invariant found <==> remaining != pending.Keys
        invariant found ==> oldest in q && oldest.key == oldestKey
        invariant q[0].key !in remaining ==> !Before(q[0], oldest)
        decreases remaining
      {
        var key :| key in remaining;
        BucketMembers(pending, q, key);
        BucketHasKey(pending, q, key);
        var candidate := pending[key][0];
        if !found || candidate.insertedAt < oldest.insertedAt
           || (candidate.insertedAt == oldest.insertedAt && candidate.order < oldest.order) {
          oldestKey, oldest, found := key, candidate, true;
        }
        remaining := remaining - {key};
      }
      HeadIsOldest(q, nextOrder, now, oldest);
    }

    method DropOldest(ghost now: int)
      requires Valid() && Clocked(now) && queue != []
      modifies this
      ensures Valid() && queue == old(queue)[1..] && nextOrder == old(nextOrder)
    {
      var oldestKey := OldestHead(pending, queue, nextOrder, now);
      HeadOfBucket(pending, queue);
      var records := pending[oldestKey][1..];
      pending := if records == [] then pending - {oldestKey} else pending[oldestKey := records];
      pendingCount := pendingCount - 1;
      queue := queue[1..];
    }

    method AddPending(key: Key, record: LogRecord) returns (dropped: nat)
      requires Valid() && Clocked(record.now)
      modifies this
      ensures Valid() && Clocked(record.now)
      ensures nextOrder == old(nextOrder) + 1
      ensures queue == Add(old(queue), NewPending(key, record, nextOrder))
      ensures dropped == if old(|queue|) >= MAX_PENDING then 1 else 0
    {
      dropped := 0;
      if pendingCount >= MAX_PENDING {
        DropOldest(record.now);
        dropped := 1;
      }
      nextOrder := nextOrder + 1;
      var r := NewPending(key, record, nextOrder);
      AddRepresents(pending, queue, r);
      pending := pending[key := (if key in pending then pending[key] else []) + [r]];
      pendingCount := pendingCount + 1;
      queue := queue + [r];
    }

    // The position of the first record that is not later than the response.
    method FindMatch(records: Queue, key: Key, responseTime: int) returns (i: nat)
      requires forall j :: 0 <= j < |records| ==> records[j].key == key
      ensures i <= |records|
      ensures First(Matches(key, responseTime), records) == if i < |records| then Some(records[i]) else None
      ensures RemoveFirst(Matches(key, responseTime), records) == if i < |records| then records[..i] + records[i + 1..]
        else records
    {
      i := 0;
      while i < |records| && records[i].time > responseTime
        invariant i <= |records|
        invariant forall j :: 0 <= j < i ==> records[j].time > responseTime
      {
        i := i + 1;
      }
      if i < |records| {
        RemoveFirstAt(Matches(key, responseTime), records, i);
      } else {
        NoMatch(Matches(key, responseTime), records);
      }
    }

    method PopPending(key: Key, responseTime: int) returns (found: Option<Pending>)
      requires Valid()
      modifies this
      ensures Valid() && nextOrder == old(nextOrder)
      ensures found == Popped(old(queue), key, responseTime) && queue == Pop(old(queue), key, responseTime)
    {
      if key !in pending {
        PopAbsent(pending, queue, key, responseTime);
        return None;
      }
      PopRepresents(pending, queue, key, responseTime);
      BucketHasKey(pending, queue, key);
      RemoveFirstSplits(Matches(key, responseTime), queue);
      var records := pending[key];
      var i := FindMatch(records, key, responseTime);
      if i == |records| {
        return None;
      }
      found := Some(records[i]);
      records := records[..i] + records[i + 1..];
      pending := if records == [] then pending - {key} else pending[key := records];
      pendingCount := pendingCount - 1;
      queue := Pop(queue, key, responseTime);
    }

    method ExpirePrefix(records: Queue, cutoff: int) returns (first: nat)
      requires Aged(records)
      ensures first <= |records| && Filter(Alive(cutoff), records) == records[first..]
    {
      first := 0;
      while first < |records| && records[first].insertedAt < cutoff
        invariant first <= |records|
        invariant forall i :: 0 <= i < first ==> records[i].insertedAt < cutoff
      {
        first := first + 1;
      }
      AlivePrefix(records, cutoff, first);
    }

    method ExpireBucket(pending: Buckets, cutoff: int, key: Key, ghost q: Queue, ghost done: set<Key>)
      returns (pending': Buckets, dropped: nat)
      requires key in pending && key !in done && Aged(pending[key])
      requires Represents(pending, Filter(Kept(done, cutoff), q))
      ensures Represents(pending', Filter(Kept(done + {key}, cutoff), q))
      ensures dropped == |Filter(Kept(done, cutoff), q)| - |Filter(Kept(done + {key}, cutoff), q)|
    {
      var records := pending[key];
      var first := ExpirePrefix(records, cutoff);
      SweepBucket(pending, q, done, key, cutoff);
      PutSame(pending, Filter(Kept(done, cutoff), q), key);
      dropped := first;
      if first == 0 {
        assert records[0..] == records;
        return pending, 0;
      }
      pending' := if first == |records| then pending - {key} else pending[key := records[first..]];
    }

    // Sweeps every bucket, in whatever order the map yields them.
    method ExpireBuckets(pending: Buckets, cutoff: int, ghost q: Queue) returns (pending': Buckets, dropped: nat)
      requires Represents(pending, q) && Aged(q)
      ensures Represents(pending', Filter(Alive(cutoff), q))
      ensures dropped == |q| - |Filter(Alive(cutoff), q)|
    {
      pending', dropped := pending, 0;
      var remaining := pending.Keys;
      ghost var done: set<Key> := {};
      SweptNone(q, cutoff);
      while remaining != {}
        invariant done !! remaining && done + remaining == pending.Keys
        invariant Represents(pending', Filter(Kept(done, cutoff), q))
        invariant dropped == |q| - |Filter(Kept(done, cutoff), q)|
        decreases remaining
      {
        var key :| key in remaining;
        BucketUnswept(pending, pending', q, done, key, cutoff);
        var n;
        pending', n := ExpireBucket(pending', cutoff, key, q, done);
        dropped := dropped + n;
        remaining, done := remaining - {key}, done + {key};
      }
      forall r | r in q ensures r.key in done {
        KeyPresent(pending, q, r);
      }
      SweptAll(pending, q, done, cutoff);
    }

    method Expire(now: int) returns (dropped: nat)
      requires Valid() && Clocked(now)
      modifies this
      ensures Valid() && Clocked(now) && nextOrder == old(nextOrder)
      ensures queue == LogQueue.Expire(old(queue), now)
      ensures dropped == old(|queue|) - |queue|
    {
      pending, dropped := ExpireBuckets(pending, now - TTL, queue);
      pendingCount := pendingCount - dropped;
      FilterOrdered(Alive(now - TTL), queue, nextOrder, now);
      FilterMembers(Alive(now - TTL), queue);
      queue := LogQueue.Expire(queue, now);
    }

    // One GenAI record: a request is queued, a response takes its request from the queue.
    method DecodeOne(record: LogRecord, ghost log: Log) returns (span: Option<RawSpan>, expired: nat, dropped: nat)
      requires Valid() && Clocked(record.now) && queue == log.queue && nextOrder == log.nextOrder
      requires record.kind != Ignored && Stamp(record) <= MAX_INT64 && !log.failed
      modifies this
      ensures Valid() && Clocked(record.now)
      ensures var log' := ProcessOne(log, record);
        && queue == log'.queue && nextOrder == log'.nextOrder && !log'.failed && log'.ignored == log.ignored
        && |log'.expired| == |log.expired| + expired && |log'.dropped| == |log.dropped| + dropped
        && Spans(log'.outcomes) == Spans(log.outcomes) + (if span.Some? then [span.value] else [])
    {
      ExpiredCount(queue, record.now - TTL);
      expired := Expire(record.now);
      if record.kind == Request {
        dropped := AddPending(record.key, record);
        span := None;
      } else {
        ghost var before := queue;
        var request := PopPending(record.key, Stamp(record));
        PopOrdered(before, record.key, Stamp(record), nextOrder, record.now);
        SpansAppend(log.outcomes, Outcome(record, request));
        span, dropped := Some(RawLogSpan(record, request)), 0;
      }
    }

    // The record loop of Decode. A timestamp out of range abandons the request, but not what the
    // earlier records did to the queue.
    // `clock` is what the clock showed at the end of the previous request.
    method Decode(records: seq<LogRecord>, ghost clock: int)
      returns (spans: Option<seq<RawSpan>>, ignored: nat, expired: nat, capacityDropped: nat)
      requires Valid() && Clocked(clock) && Monotonic(clock, records)
      modifies this
      ensures Valid() && Clocked(ClockAfter(clock, records))
      ensures var log := Process(Start(old(queue), old(nextOrder)), records);
        && queue == log.queue && nextOrder == log.nextOrder
        && ignored == log.ignored && expired == |log.expired| && capacityDropped == |log.dropped|
        && spans == (if log.failed then None else Some(Spans(log.outcomes)))
    {
      ghost var start := Start(queue, nextOrder);
      ghost var log, seen := start, clock;
      ignored, expired, capacityDropped := 0, 0, 0;
      var result: seq<RawSpan> := [];
      for i := 0 to |records|
        invariant Valid()
        invariant log == Process(start, records[..i]) && !log.failed
        invariant queue == log.queue && nextOrder == log.nextOrder
        invariant ignored == log.ignored && expired == |log.expired| && capacityDropped == |log.dropped|
        invariant result == Spans(log.outcomes)
        invariant Clocked(seen) && seen <= ClockAfter(clock, records) && (i < |records| ==> seen <= records[i].now)
      {
        ProcessNext(start, records, i);
        var record := records[i];
        OrderedLater(queue, nextOrder, seen, record.now);
        seen := record.now;
        if record.kind == Ignored {
          ignored := ignored + 1;
        } else if Stamp(record) > MAX_INT64 {
          OrderedLater(queue, nextOrder, seen, ClockAfter(clock, records));
          return None, ignored, expired, capacityDropped;
        } else {
          var span, e, d := DecodeOne(record, log);
          expired, capacityDropped := expired + e, capacityDropped + d;
          result := result + (if span.Some? then [span.value] else []);
        }
        log := ProcessOne(log, record);
      }
      assert records[..|records|] == records;
      OrderedLater(queue, nextOrder, seen, ClockAfter(clock, records));
      spans := Some(result);
    }
  }

  function Start(queue: Queue, nextOrder: nat): Log {
    Log(queue, nextOrder, [], [], [], [], 0, false)
  }

  function NewPending(key: Key, record: LogRecord, order: nat): Pending {
    Pending(key, record.attrs, Stamp(record), record.now, order)
  }

  predicate Before(a: Pending, b: Pending) {
    a.insertedAt < b.insertedAt || (a.insertedAt == b.insertedAt && a.order < b.order)
  }

  lemma HeadIsOldest(q: Queue, nextOrder: nat, now: int, oldest: Pending)
    requires Ordered(q, nextOrder, now) && oldest in q && !Before(q[0], oldest)
    ensures q != [] && oldest == q[0]
  {
  }

  lemma BucketHasKey(pending: Buckets, q: Queue, key: Key)
    requires Represents(pending, q) && key in pending
    ensures forall i :: 0 <= i < |pending[key]| ==> pending[key][i].key == key
  {
    assert RepresentsAt(pending, q, key);
    FilterMembers(HasKey(key), q);
    forall i | 0 <= i < |pending[key]| ensures pending[key][i].key == key {
      assert pending[key][i] in Filter(HasKey(key), q);
    }
  }

  lemma KeyPresent(pending: Buckets, q: Queue, r: Pending)
    requires Represents(pending, q) && r in q
    ensures r.key in pending
  {
    assert RepresentsAt(pending, q, r.key);
    FilterMembers(HasKey(r.key), q);
  }

  lemma BucketUnswept(pending: Buckets, pending': Buckets, q: Queue, done: set<Key>, key: Key, cutoff: int)
    requires Represents(pending, q) && Represents(pending', Filter(Kept(done, cutoff), q)) && Aged(q)
    requires key in pending && key !in done
    ensures key in pending' && Aged(pending'[key])
  {
    var kept := Filter(Kept(done, cutoff), q);
    assert RepresentsAt(pending, q, key) && RepresentsAt(pending', kept, key);
    FilterFilter(HasKey(key), Kept(done, cutoff), HasKey(key), q);
    FilterAged(HasKey(key), q);
  }

  lemma KeepHeadOrdered(q: Queue, rest: Queue, nextOrder: nat, now: int)
    requires q != [] && Ordered(q, nextOrder, now) && Ordered(rest, nextOrder, now)
    requires forall i :: 0 <= i < |rest| ==> rest[i] in q[1..]
    ensures Ordered([q[0]] + rest, nextOrder, now)
  {
  }

  lemma {:induction false} FilterOrdered(p: Pending -> bool, q: Queue, nextOrder: nat, now: int)
    requires Ordered(q, nextOrder, now)
    ensures Ordered(Filter(p, q), nextOrder, now)
  {
    if q != [] {
      var rest := Filter(p, q[1..]);
      FilterOrdered(p, q[1..], nextOrder, now);
      FilterMembers(p, q[1..]);
      forall i | 0 <= i < |rest| ensures rest[i] in q[1..] {
        assert rest[i] in rest;
      }
      KeepHeadOrdered(q, rest, nextOrder, now);
    }
  }

  lemma {:induction false} PopOrdered(q: Queue, key: Key, time: int, nextOrder: nat, now: int)
    requires Ordered(q, nextOrder, now)
    ensures Ordered(Pop(q, key, time), nextOrder, now)
    ensures forall r :: r in Pop(q, key, time) ==> r in q
  {
    if q != [] {
      var rest := Pop(q[1..], key, time);
      PopOrdered(q[1..], key, time, nextOrder, now);
      KeepHeadOrdered(q, rest, nextOrder, now);
    }
  }

  lemma ExpiredCount(q: Queue, cutoff: int)
    ensures |Filter(Expired(cutoff), q)| == |q| - |Filter(Alive(cutoff), q)|
  {
    FilterSplits(Expired(cutoff), Alive(cutoff), q, Pending(Key("", ""), map[], 0, 0, 0));
  }

  lemma OrderedLater(q: Queue, nextOrder: nat, now: int, later: int)
    requires Ordered(q, nextOrder, now) && now <= later
    ensures Ordered(q, nextOrder, later)
  {
  }

  // The clock never runs backwards, from `clock` on.
  ghost predicate Monotonic(clock: int, records: seq<LogRecord>) {
    && (forall i :: 0 <= i < |records| ==> clock <= records[i].now)
    && (forall i, j :: 0 <= i < j < |records| ==> records[i].now <= records[j].now)
  }

  function ClockAfter(clock: int, records: seq<LogRecord>): int {
    if records == [] then clock else records[|records| - 1].now
  }

  // ----- The record loop over the reference queue -----

  datatype Outcome = Outcome(response: LogRecord, request: Option<Pending>)

  // The queue, and everything that ever entered or left it.
  datatype Log = Log(queue: Queue, nextOrder: nat, added: seq<Pending>, outcomes: seq<Outcome>, expired: seq<Pending>,
                     dropped: seq<Pending>, ignored: nat, failed: bool)

  // Every GenAI record first lets the queue expire.
  function ExpireLog(log: Log, r: LogRecord): Log {
    log.(queue := LogQueue.Expire(log.queue, r.now), expired := log.expired + Filter(Expired(r.now - TTL), log.queue))
  }

  function QueueRequest(log: Log, r: LogRecord): Log {
    var p := NewPending(r.key, r, log.nextOrder + 1);
    log.(queue := Add(log.queue, p), nextOrder := log.nextOrder + 1, added := log.added + [p],
         dropped := log.dropped + if |log.queue| >= MAX_PENDING then [log.queue[0]] else [])
  }

  function PairResponse(log: Log, r: LogRecord): Log {
    log.(queue := Pop(log.queue, r.key, Stamp(r)),
         outcomes := log.outcomes + [Outcome(r, Popped(log.queue, r.key, Stamp(r)))])
  }

  function ProcessOne(log: Log, r: LogRecord): Log {
    if log.failed then log
    else if r.kind == Ignored then log.(ignored := log.ignored + 1)
    else if Stamp(r) > MAX_INT64 then log.(failed := true)
    else if r.kind == Request then QueueRequest(ExpireLog(log, r), r)
    else PairResponse(ExpireLog(log, r), r)
  }

  function Process(log: Log, records: seq<LogRecord>): Log {
    if records == [] then log else ProcessOne(Process(log, records[..|records| - 1]), records[|records| - 1])
  }

  function Spans(outcomes: seq<Outcome>): seq<RawSpan> {
    seq(|outcomes|, i requires 0 <= i < |outcomes| => RawLogSpan(outcomes[i].response, outcomes[i].request))
  }

  lemma SpansAppend(outcomes: seq<Outcome>, o: Outcome)
    ensures Spans(outcomes + [o]) == Spans(outcomes) + [RawLogSpan(o.response, o.request)]
  {
  }

  lemma {:induction false} ProcessSplit(log: Log, records: seq<LogRecord>, i: nat)
    requires i <= |records|
    ensures Process(log, records) == Process(Process(log, records[..i]), records[i..])
    decreases |records|
  {
    if i < |records| {
      var init := records[..|records| - 1];
      ProcessSplit(log, init, i);
      assert init[..i] == records[..i];
      assert records[i..][..|records| - i - 1] == init[i..];
    } else {
      assert records[..i] == records;
    }
  }

  lemma ProcessNext(log: Log, records: seq<LogRecord>, i: nat)
    requires i < |records|
    ensures Process(log, records[..i + 1]) == ProcessOne(Process(log, records[..i]), records[i])
    ensures ProcessOne(Process(log, records[..i]), records[i]).failed ==>
      Process(log, records) == Process(log, records[..i + 1])
  {
    assert records[..i + 1][..i] == records[..i];
    ProcessSplit(log, records, i + 1);
    if ProcessOne(Process(log, records[..i]), records[i]).failed {
      ProcessFailed(Process(log, records[..i + 1]), records[i + 1..]);
    }
  }

  lemma {:induction false} ProcessFailed(log: Log, records: seq<LogRecord>)
    requires log.failed
    ensures Process(log, records) == log
  {
    if records != [] {
      ProcessFailed(log, records[..|records| - 1]);
    }
  }
}
