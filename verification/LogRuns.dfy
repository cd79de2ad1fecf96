// What the log adapter guarantees over a whole request, whatever the records.
module LogRuns {
  import opened Prelude
  import opened Seqs
  import opened LogQueue
  import opened LogsAdapter

  // The requests that found their response, in that order.
  function Paired(outcomes: seq<Outcome>): seq<Pending> {
    if outcomes == [] then []
    else
      var last := outcomes[|outcomes| - 1];
      Paired(outcomes[..|outcomes| - 1]) + Singleton(last.request)
  }

  lemma PairedAppend(outcomes: seq<Outcome>, o: Outcome)
    ensures Paired(outcomes + [o]) == Paired(outcomes) + Singleton(o.request)
  {
    assert (outcomes + [o])[..|outcomes|] == outcomes;
  }

  // Where the occurrences of a record are now.
  function Accounted(log: Log, p: Pending): nat {
    Times(log.queue, p) + Times(Paired(log.outcomes), p) + Times(log.expired, p) + Times(log.dropped, p)
  }

  function Places(log: Log): nat {
    |log.queue| + |Paired(log.outcomes)| + |log.expired| + |log.dropped|
  }

  lemma AddAccounts(q: Queue, incoming: Pending, p: Pending)
    ensures Times(q, p) + Times([incoming], p) ==
      Times(Add(q, incoming), p) + Times(if |q| >= MAX_PENDING then [q[0]] else [], p)
  {
    if |q| >= MAX_PENDING {
      TimesAppend(q[1..], [incoming], p);
    } else {
      TimesAppend(q, [incoming], p);
    }
  }

  ghost predicate Balanced(log: Log, log': Log, p: Pending) {
    && Accounted(log', p) + Times(log.added, p) == Accounted(log, p) + Times(log'.added, p)
    && Places(log') + |log.added| == Places(log) + |log'.added|
  }

  lemma ExpireBalanced(log: Log, r: LogRecord, p: Pending)
    ensures Balanced(log, ExpireLog(log, r), p)
  {
    FilterSplits(Alive(r.now - TTL), Expired(r.now - TTL), log.queue, p);
    TimesAppend(log.expired, Filter(Expired(r.now - TTL), log.queue), p);
  }

  lemma RequestBalanced(log: Log, r: LogRecord, p: Pending)
    ensures Balanced(log, QueueRequest(log, r), p)
  {
    var incoming := NewPending(r.key, r, log.nextOrder + 1);
    AddAccounts(log.queue, incoming, p);
    TimesAppend(log.added, [incoming], p);
    TimesAppend(log.dropped, if |log.queue| >= MAX_PENDING then [log.queue[0]] else [], p);
  }

  lemma ResponseBalanced(log: Log, r: LogRecord, p: Pending)
    ensures Balanced(log, PairResponse(log, r), p)
  {
    var found := Popped(log.queue, r.key, Stamp(r));
    RemoveFirstSplits(Matches(r.key, Stamp(r)), log.queue);
    RemoveFirstTimes(Matches(r.key, Stamp(r)), log.queue, p);
    PairedAppend(log.outcomes, Outcome(r, found));
    TimesAppend(Paired(log.outcomes), Singleton(found), p);
  }

  lemma StepAccounts(log: Log, r: LogRecord, p: Pending)
    ensures Balanced(log, ProcessOne(log, r), p)
  {
    if !log.failed && r.kind != Ignored && Stamp(r) <= MAX_INT64 {
      var aged := ExpireLog(log, r);
      ExpireBalanced(log, r, p);
      if r.kind == Request {
        RequestBalanced(aged, r, p);
        BalancedTwice(log, aged, QueueRequest(aged, r), p);
      } else {
        ResponseBalanced(aged, r, p);
        BalancedTwice(log, aged, PairResponse(aged, r), p);
      }
    }
  }

  lemma BalancedTwice(a: Log, b: Log, c: Log, p: Pending)
    requires Balanced(a, b, p) && Balanced(b, c, p)
    ensures Balanced(a, c, p)
  {
  }

  lemma {:induction false} ProcessBalanced(log: Log, records: seq<LogRecord>, p: Pending)
    ensures Balanced(log, Process(log, records), p)
  {
    if records != [] {
      var init, last := records[..|records| - 1], records[|records| - 1];
      ProcessBalanced(log, init, p);
      StepAccounts(Process(log, init), last, p);
      BalancedTwice(log, Process(log, init), Process(log, records), p);
    }
  }

  // ----- One adapter, many requests -----

  // A request after others: a failure concerns the one request that had it.
  function NextRequest(log: Log, records: seq<LogRecord>): Log {
    Process(log.(failed := false), records)
  }

  function Serve(log: Log, requests: seq<seq<LogRecord>>): Log {
    if requests == [] then log
    else NextRequest(Serve(log, requests[..|requests| - 1]), requests[|requests| - 1])
  }

  // `all` is `log` with what happened in `one` added.
  ghost predicate Extends(log: Log, all: Log, one: Log) {
    && all.queue == one.queue && all.nextOrder == one.nextOrder && all.failed == one.failed
    && all.added == log.added + one.added && all.outcomes == log.outcomes + one.outcomes
    && all.expired == log.expired + one.expired && all.dropped == log.dropped + one.dropped
    && all.ignored == log.ignored + one.ignored
  }

  lemma ExpireExtends(log: Log, all: Log, one: Log, r: LogRecord)
    requires Extends(log, all, one)
    ensures Extends(log, ExpireLog(all, r), ExpireLog(one, r))
  {
    var more := Filter(Expired(r.now - TTL), one.queue);
    assert log.expired + one.expired + more == log.expired + (one.expired + more);
  }

  lemma StepExtends(log: Log, all: Log, one: Log, r: LogRecord)
    requires Extends(log, all, one)
    ensures Extends(log, ProcessOne(all, r), ProcessOne(one, r))
  {
    ExpireExtends(log, all, one, r);
    var aged := ExpireLog(one, r);
    var p := NewPending(r.key, r, aged.nextOrder + 1);
    var dropped := if |aged.queue| >= MAX_PENDING then [aged.queue[0]] else [];
    var o := Outcome(r, Popped(aged.queue, r.key, Stamp(r)));
    assert log.added + aged.added + [p] == log.added + (aged.added + [p]);
    assert log.dropped + aged.dropped + dropped == log.dropped + (aged.dropped + dropped);
    assert log.outcomes + aged.outcomes + [o] == log.outcomes + (aged.outcomes + [o]);
  }

  // What was in the log before does not matter to what a request does.
  lemma {:induction false} RequestAlone(log: Log, records: seq<LogRecord>)
    ensures Extends(log, NextRequest(log, records), Process(Start(log.queue, log.nextOrder), records))
  {
    if records != [] {
      var init := records[..|records| - 1];
      RequestAlone(log, init);
      StepExtends(log, NextRequest(log, init), Process(Start(log.queue, log.nextOrder), init), records[|records| - 1]);
    }
  }

  // The adapter has served these requests since it was made.
  ghost predicate HasServed(adapter: LogsAdapter, requests: seq<seq<LogRecord>>, clock: int)
    reads adapter
  {
    var log := Serve(Start([], 0), requests);
    && adapter.Valid() && adapter.Clocked(ClockAfterAll(clock, requests))
    && adapter.queue == log.queue && adapter.nextOrder == log.nextOrder
  }

  // Every request, whether those before it failed or not, takes the adapter one request further.
  method DecodeNext(adapter: LogsAdapter, records: seq<LogRecord>, ghost served: seq<seq<LogRecord>>, ghost clock: int)
    returns (spans: Option<seq<RawSpan>>)
    requires HasServed(adapter, served, clock) && Monotonic(ClockAfterAll(clock, served), records)
    modifies adapter
    ensures HasServed(adapter, served + [records], clock)
    ensures var before, log := Serve(Start([], 0), served), Serve(Start([], 0), served + [records]);
      && |before.outcomes| <= |log.outcomes|
      && spans == if log.failed then None else Some(Spans(log.outcomes[|before.outcomes|..]))
  {
    assert (served + [records])[..|served|] == served;
    ghost var before := Serve(Start([], 0), served);
    RequestAlone(before, records);
    var ignored, expired, dropped;
    spans, ignored, expired, dropped := adapter.Decode(records, ClockAfterAll(clock, served));
    ghost var one := Process(Start(before.queue, before.nextOrder), records);
    assert (before.outcomes + one.outcomes)[|before.outcomes|..] == one.outcomes;
  }

  function ClockAfterAll(clock: int, requests: seq<seq<LogRecord>>): int {
    if requests == [] then clock
    else ClockAfter(ClockAfterAll(clock, requests[..|requests| - 1]), requests[|requests| - 1])
  }

  ghost predicate MonotonicAll(clock: int, requests: seq<seq<LogRecord>>) {
    requests != [] ==>
      && MonotonicAll(clock, requests[..|requests| - 1])
      && Monotonic(ClockAfterAll(clock, requests[..|requests| - 1]), requests[|requests| - 1])
  }

  // Conservation over any requests, failed ones included: every record ever queued is still
  // pending, was paired, expired or was dropped at capacity, and is exactly one of these.
  lemma {:induction false} NothingLostOrDoubled(q: Queue, nextOrder: nat, requests: seq<seq<LogRecord>>, p: Pending)
    ensures var log := Serve(Start(q, nextOrder), requests);
      && Accounted(log, p) == Times(q, p) + Times(log.added, p)
      && Places(log) == |q| + |log.added|
  {
    if requests != [] {
      var before := Serve(Start(q, nextOrder), requests[..|requests| - 1]);
      NothingLostOrDoubled(q, nextOrder, requests[..|requests| - 1], p);
      ProcessBalanced(before.(failed := false), requests[|requests| - 1], p);
    }
  }

  // ----- Order and the cap -----

  ghost predicate Sound(log: Log, now: int) {
    && Ordered(log.queue, log.nextOrder, now)
    && |log.queue| <= MAX_PENDING
    && (forall i :: 0 <= i < |log.added| ==> log.added[i].order <= log.nextOrder)
    && (forall i, j :: 0 <= i < j < |log.added| ==> log.added[i].order < log.added[j].order)
  }

  lemma AddOrdered(q: Queue, nextOrder: nat, p: Pending, now: int)
    requires Ordered(q, nextOrder, now) && |q| <= MAX_PENDING && p.order == nextOrder + 1 && p.insertedAt == now
    ensures Ordered(Add(q, p), nextOrder + 1, now) && |Add(q, p)| <= MAX_PENDING
  {
  }

  lemma ExpireOrdered(q: Queue, nextOrder: nat, now: int, later: int)
    requires Ordered(q, nextOrder, now) && now <= later
    ensures Ordered(LogQueue.Expire(q, later), nextOrder, later) && |LogQueue.Expire(q, later)| <= |q|
  {
    assert Ordered(q, nextOrder, later);
    FilterOrdered(Alive(later - TTL), q, nextOrder, later);
    FilterMembers(Alive(later - TTL), q);
  }

  lemma PopShrinks(q: Queue, key: Key, time: int, nextOrder: nat, now: int)
    requires Ordered(q, nextOrder, now)
    ensures Ordered(Pop(q, key, time), nextOrder, now) && |Pop(q, key, time)| <= |q|
  {
    PopOrdered(q, key, time, nextOrder, now);
    RemoveFirstSplits(Matches(key, time), q);
  }

  lemma StepSound(log: Log, r: LogRecord, now: int)
    requires Sound(log, now) && now <= r.now
    ensures Sound(ProcessOne(log, r), r.now)
  {
    if !log.failed && r.kind != Ignored && Stamp(r) <= MAX_INT64 {
      ExpireSound(log, r, now);
      if r.kind == Request {
        RequestSound(ExpireLog(log, r), r);
      } else {
        ResponseSound(ExpireLog(log, r), r);
      }
    } else {
      LaterSound(log, now, r.now);
    }
  }

  lemma LaterSound(log: Log, now: int, later: int)
    requires Sound(log, now) && now <= later
    ensures Sound(log, later)
  {
  }

  lemma ExpireSound(log: Log, r: LogRecord, now: int)
    requires Sound(log, now) && now <= r.now
    ensures Sound(ExpireLog(log, r), r.now)
  {
    ExpireOrdered(log.queue, log.nextOrder, now, r.now);
  }

  lemma RequestSound(log: Log, r: LogRecord)
    requires Sound(log, r.now)
    ensures Sound(QueueRequest(log, r), r.now)
  {
    AddOrdered(log.queue, log.nextOrder, NewPending(r.key, r, log.nextOrder + 1), r.now);
  }

  lemma ResponseSound(log: Log, r: LogRecord)
    requires Sound(log, r.now)
    ensures Sound(PairResponse(log, r), r.now)
  {
    PopShrinks(log.queue, r.key, Stamp(r), log.nextOrder, r.now);
  }

  lemma {:induction false} ProcessSound(log: Log, records: seq<LogRecord>, clock: int)
    requires Sound(log, clock) && Monotonic(clock, records)
    ensures Sound(Process(log, records), ClockAfter(clock, records))
  {
    if records != [] {
      var init, last := records[..|records| - 1], records[|records| - 1];
      ProcessSound(log, init, clock);
      StepSound(Process(log, init), last, ClockAfter(clock, init));
    }
  }

  // Over any requests the queue stays in order of arrival and time, and within its capacity.
  lemma {:induction false} RunSound(requests: seq<seq<LogRecord>>, clock: int)
    requires MonotonicAll(clock, requests)
    ensures Sound(Serve(Start([], 0), requests), ClockAfterAll(clock, requests))
  {
    if requests != [] {
      var init := requests[..|requests| - 1];
      RunSound(init, clock);
      ProcessSound(Serve(Start([], 0), init).(failed := false), requests[|requests| - 1], ClockAfterAll(clock, init));
    }
  }

  lemma {:induction false} AtMostOnce(ys: seq<Pending>, y: Pending)
    requires forall h, k :: 0 <= h < k < |ys| ==> ys[h].order < ys[k].order
    ensures Times(ys, y) <= 1
  {
    if ys != [] {
      AtMostOnce(ys[1..], y);
      TimesIn(ys[1..], ys[0]);
    }
  }

  lemma TwiceCounts(xs: seq<Pending>, i: nat, j: nat)
    requires i < j < |xs| && xs[i] == xs[j]
    ensures Times(xs, xs[i]) >= 2
  {
    assert xs == xs[..j] + xs[j..];
    TimesAppend(xs[..j], xs[j..], xs[i]);
    assert xs[..j][i] == xs[i] && xs[j..][0] == xs[j];
    TimesIn(xs[..j], xs[i]);
    TimesIn(xs[j..], xs[i]);
  }

  // No request is paired twice, in whichever requests its responses come.
  lemma PairedOnce(requests: seq<seq<LogRecord>>, clock: int, i: nat, j: nat)
    requires MonotonicAll(clock, requests) && i < j < |Paired(Serve(Start([], 0), requests).outcomes)|
    ensures var paired := Paired(Serve(Start([], 0), requests).outcomes); paired[i] != paired[j]
  {
    var log := Serve(Start([], 0), requests);
    var paired := Paired(log.outcomes);
    RunSound(requests, clock);
    if paired[i] == paired[j] {
      TwiceCounts(paired, i, j);
      NothingLostOrDoubled([], 0, requests, paired[i]);
      AtMostOnce(log.added, paired[i]);
    }
  }

  // ----- What a pairing means -----

  // A response gets the earliest arrival of its key that is not later than itself and has not
  // expired; without one it stands alone.
  ghost predicate Fifo(q: Queue, r: LogRecord, request: Option<Pending>) {
    match request
    case Some(p) =>
      && p in q && p.key == r.key && p.time <= Stamp(r) && p.insertedAt >= r.now - TTL
      && forall other :: other in q && other.key == r.key && other.time <= Stamp(r) && other.insertedAt >= r.now - TTL
           ==> p.order <= other.order
    case None =>
      forall other :: other in q && other.key == r.key && other.time <= Stamp(r) ==> other.insertedAt < r.now - TTL
  }

  lemma {:induction false} FirstIsEarliest(q: Queue, m: Pending -> bool, nextOrder: nat, now: int)
    requires Ordered(q, nextOrder, now) && First(m, q).Some?
    ensures forall other :: other in q && m(other) ==> First(m, q).value.order <= other.order
  {
    if !m(q[0]) {
      FirstIsEarliest(q[1..], m, nextOrder, now);
      assert q == [q[0]] + q[1..];
    }
  }

  lemma PoppedIsFifo(q: Queue, r: LogRecord, nextOrder: nat)
    requires Ordered(q, nextOrder, r.now)
    ensures Fifo(q, r, Popped(LogQueue.Expire(q, r.now), r.key, Stamp(r)))
  {
    var alive := LogQueue.Expire(q, r.now);
    FilterOrdered(Alive(r.now - TTL), q, nextOrder, r.now);
    FilterMembers(Alive(r.now - TTL), q);
    RemoveFirstSplits(Matches(r.key, Stamp(r)), alive);
    if Popped(alive, r.key, Stamp(r)).Some? {
      FirstIsEarliest(alive, Matches(r.key, Stamp(r)), nextOrder, r.now);
      forall other | other in q && other.key == r.key && other.time <= Stamp(r) && other.insertedAt >= r.now - TTL
        ensures Popped(alive, r.key, Stamp(r)).value.order <= other.order
      {
        assert Alive(r.now - TTL)(other) && other in alive && Matches(r.key, Stamp(r))(other);
      }
    } else {
      forall other | other in q && other.key == r.key && other.time <= Stamp(r) ensures other.insertedAt < r.now - TTL {
        assert Matches(r.key, Stamp(r))(other);
        assert other in alive <==> Alive(r.now - TTL)(other);
      }
    }
  }

  lemma ResponseTakesEarliest(log: Log, r: LogRecord)
    requires Ordered(log.queue, log.nextOrder, r.now) && !log.failed && r.kind == Response && Stamp(r) <= MAX_INT64
    ensures exists request ::
      Fifo(log.queue, r, request) && ProcessOne(log, r).outcomes == log.outcomes + [Outcome(r, request)]
  {
    PoppedIsFifo(log.queue, r, log.nextOrder);
  }

  // The span of a paired response starts with its request, if that carried a time, and ends with
  // the response; swapping the two ends is never needed.
  lemma SpanTimes(r: LogRecord, request: Option<Pending>)
    requires request.Some? ==> 0 <= request.value.time <= Stamp(r)
    ensures RawLogSpan(r, request).endNs == if r.observed != 0 then r.observed else r.time
    ensures RawLogSpan(r, request).startNs ==
      if request.Some? && request.value.time != 0 then request.value.time else RawLogSpan(r, request).endNs
  {
  }

  // Whatever the two times are, a span does not end before it starts, and both are times of its records.
  lemma SpanForward(r: LogRecord, request: Option<Pending>)
    ensures var span := RawLogSpan(r, request); var first := if request.Some? then request.value.time else Stamp(r);
      && span.startNs <= span.endNs
      && ({span.startNs, span.endNs} == {first, Stamp(r)} || (first == 0 && span.startNs == span.endNs == Stamp(r))
          || (Stamp(r) == 0 && span.startNs == span.endNs == first))
  {
  }

  // An attribute is the response's, or, where the response has none, the request's; only the event name
  // is taken out and the source put in. A span is an error if and only if one of the two names an error.
  lemma SpanAttributes(r: LogRecord, request: Option<Pending>, name: string)
    requires name != "event.name" && name != "spanbox.source"
    ensures var span := RawLogSpan(r, request);
      && (name in r.attrs ==> name in span.attrs && span.attrs[name] == r.attrs[name])
      && (name !in r.attrs && request.Some? && name in request.value.attrs ==>
            name in span.attrs && span.attrs[name] == request.value.attrs[name])
      && (name in span.attrs ==> name in r.attrs || (request.Some? && name in request.value.attrs))
    ensures var span := RawLogSpan(r, request);
      && "event.name" !in span.attrs
      && "spanbox.source" in span.attrs && span.attrs["spanbox.source"] == "otlp-logs"
    ensures RawLogSpan(r, request).statusCode ==
      if "error.type" in r.attrs || (request.Some? && "error.type" in request.value.attrs) then 2 else 0
  {
  }

  // ----- Failure -----

  predicate BadTimestamp(r: LogRecord) {
    r.kind != Ignored && Stamp(r) > MAX_INT64
  }

  // Decode answers with an error exactly when some GenAI record's timestamp does not fit 64 bits.
  lemma {:induction false} FailsIffBadTimestamp(log: Log, records: seq<LogRecord>)
    requires !log.failed
    ensures Process(log, records).failed <==> exists i :: 0 <= i < |records| && BadTimestamp(records[i])
  {
    if records != [] {
      var init, last := records[..|records| - 1], records[|records| - 1];
      FailsIffBadTimestamp(log, init);
      if Process(log, init).failed {
        var i :| 0 <= i < |init| && BadTimestamp(init[i]);
        assert BadTimestamp(records[i]);
      } else {
        assert forall i :: 0 <= i < |init| ==> !BadTimestamp(records[i]) by {
          forall i | 0 <= i < |init| ensures !BadTimestamp(records[i]) { assert init[i] == records[i]; }
        }
      }
    }
  }

  // Record j is a response that finds a request when its turn comes.
  ghost predicate Pairs(log: Log, records: seq<LogRecord>, j: nat)
    requires j < |records|
  {
    var r := records[j];
    && r.kind == Response
    && Popped(LogQueue.Expire(Process(log, records[..j]).queue, r.now), r.key, Stamp(r)).Some?
  }

  ghost predicate AllGood(records: seq<LogRecord>) {
    forall i :: 0 <= i < |records| ==> !BadTimestamp(records[i])
  }

  lemma PairedNext(before: Log, r: LogRecord)
    requires !before.failed && !BadTimestamp(r)
    ensures !ProcessOne(before, r).failed
    ensures Paired(ProcessOne(before, r).outcomes) == Paired(before.outcomes) +
      if r.kind == Response then Singleton(Popped(LogQueue.Expire(before.queue, r.now), r.key, Stamp(r))) else []
  {
    var found := Popped(LogQueue.Expire(before.queue, r.now), r.key, Stamp(r));
    PairedAppend(before.outcomes, Outcome(r, found));
    OutcomesNext(before, r, found);
    assert Paired(before.outcomes) + [] == Paired(before.outcomes);
  }

  lemma OutcomesNext(before: Log, r: LogRecord, found: Option<Pending>)
    requires !before.failed && !BadTimestamp(r)
    requires found == Popped(LogQueue.Expire(before.queue, r.now), r.key, Stamp(r))
    ensures !ProcessOne(before, r).failed
    ensures ProcessOne(before, r).outcomes ==
      if r.kind == Response then before.outcomes + [Outcome(r, found)] else before.outcomes
  {
  }

  lemma {:induction false} PairedIffSomePairs(log: Log, records: seq<LogRecord>)
    requires !log.failed && AllGood(records) && Paired(log.outcomes) == []
    ensures !Process(log, records).failed
    ensures Paired(Process(log, records).outcomes) != [] <==> SomePairs(log, records)
  {
    if records != [] {
      var init, r := records[..|records| - 1], records[|records| - 1];
      assert records == init + [r];
      assert AllGood(init) && !BadTimestamp(r) by {
        assert forall i :: 0 <= i < |init| ==> init[i] == records[i];
      }
      PairedIffSomePairs(log, init);
      PairedNext(Process(log, init), r);
      SomePairsNext(log, init, r);
    }
  }

  ghost predicate SomePairs(log: Log, records: seq<LogRecord>) {
    exists j :: 0 <= j < |records| && Pairs(log, records, j)
  }

  lemma SomePairsNext(log: Log, init: seq<LogRecord>, r: LogRecord)
    ensures SomePairs(log, init + [r]) <==> SomePairs(log, init) || Pairs(log, init + [r], |init|)
    ensures (init + [r])[..|init|] == init
  {
    var records := init + [r];
    forall j | 0 <= j < |init| ensures Pairs(log, records, j) <==> Pairs(log, init, j) {
      assert records[..j] == init[..j] && records[j] == init[j];
    }
    if j :| 0 <= j < |init| && Pairs(log, init, j) {
      assert Pairs(log, records, j);
    }
    if j :| 0 <= j < |records| && Pairs(log, records, j) {
      assert j < |init| ==> Pairs(log, init, j);
    }
  }

  // A request that fails uses up the pairs it had found; it has some if and only if a response
  // found its request before the first bad timestamp.
  lemma PairsLostIff(q: Queue, nextOrder: nat, records: seq<LogRecord>)
    ensures var log := Process(Start(q, nextOrder), records);
      log.failed && Paired(log.outcomes) != [] <==>
        exists i :: FirstBad(records, i) && SomePairs(Start(q, nextOrder), records[..i])
  {
    var start := Start(q, nextOrder);
    FailsIffBadTimestamp(start, records);
    if Process(start, records).failed {
      var i := FindFirstBad(records);
      ProcessNext(start, records, i);
      PairedIffSomePairs(start, records[..i]);
      assert forall i' :: FirstBad(records, i') ==> i' == i;
    }
  }

  ghost predicate FirstBad(records: seq<LogRecord>, i: int) {
    0 <= i < |records| && BadTimestamp(records[i]) && forall h :: 0 <= h < i ==> !BadTimestamp(records[h])
  }

  lemma {:induction false} FindFirstBad(records: seq<LogRecord>) returns (i: nat)
    requires exists h :: 0 <= h < |records| && BadTimestamp(records[h])
    ensures FirstBad(records, i)
  {
    i := 0;
    while !BadTimestamp(records[i])
      invariant i < |records| && forall h :: 0 <= h < i ==> !BadTimestamp(records[h])
      decreases |records| - i
    {
      i := i + 1;
    }
  }
}
