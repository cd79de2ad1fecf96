// Which request record a response is paired with, told on the records alone (internal/otlp/logs.go).
module LogPairs {
  import opened Prelude
  import opened Seqs
  import opened LogQueue
  import opened LogsAdapter
  import opened LogRuns

  // ----- The records that the adapter gets to see -----

  // The GenAI records of one request before its first bad timestamp.
  function Reached(records: seq<LogRecord>): seq<LogRecord> {
    if records == [] then []
    else
      var init, r := records[..|records| - 1], records[|records| - 1];
      if r.kind != Ignored && forall i :: 0 <= i < |records| ==> !BadTimestamp(records[i]) then Reached(init) + [r]
      else Reached(init)
  }

  function ReachedAll(requests: seq<seq<LogRecord>>): seq<LogRecord> {
    if requests == [] then []
    else ReachedAll(requests[..|requests| - 1]) + Reached(requests[|requests| - 1])
  }

  // Everything of a run but what concerns its last request alone.
  ghost predicate Same(a: Log, b: Log) {
    && a.queue == b.queue && a.nextOrder == b.nextOrder && a.added == b.added && a.outcomes == b.outcomes
    && a.expired == b.expired && a.dropped == b.dropped
  }

  lemma StepSame(a: Log, b: Log, r: LogRecord)
    requires Same(a, b) && a.failed == b.failed
    ensures Same(ProcessOne(a, r), ProcessOne(b, r)) && ProcessOne(a, r).failed == ProcessOne(b, r).failed
  {
  }

  lemma {:induction false} OnlyReached(a: Log, b: Log, records: seq<LogRecord>)
    requires Same(a, b) && !a.failed && !b.failed
    ensures Same(Process(a, records), Process(b, Reached(records))) && !Process(b, Reached(records)).failed
    ensures Process(a, records).failed <==> exists i :: 0 <= i < |records| && BadTimestamp(records[i])
  {
    FailsIffBadTimestamp(a, records);
    if records != [] {
      var init, r := records[..|records| - 1], records[|records| - 1];
      OnlyReached(a, b, init);
      FailsIffBadTimestamp(a, init);
      assert forall i :: 0 <= i < |init| ==> init[i] == records[i];
      if r.kind != Ignored && !Process(a, records).failed {
        assert (Reached(init) + [r])[..|Reached(init)|] == Reached(init);
        StepSame(Process(a, init), Process(b, Reached(init)), r);
      }
    }
  }

  lemma {:induction false} ServeReached(requests: seq<seq<LogRecord>>)
    ensures Same(Serve(Start([], 0), requests), Process(Start([], 0), ReachedAll(requests)))
    ensures !Process(Start([], 0), ReachedAll(requests)).failed
  {
    if requests != [] {
      var init, records := requests[..|requests| - 1], requests[|requests| - 1];
      ServeReached(init);
      var before := Process(Start([], 0), ReachedAll(init));
      OnlyReached(Serve(Start([], 0), init).(failed := false), before, records);
      ProcessSplit(Start([], 0), ReachedAll(requests), |ReachedAll(init)|);
      assert ReachedAll(requests)[..|ReachedAll(init)|] == ReachedAll(init);
      assert ReachedAll(requests)[|ReachedAll(init)|..] == Reached(records);
    }
  }

  ghost predicate Plain(rs: seq<LogRecord>) {
    forall i :: 0 <= i < |rs| ==> rs[i].kind != Ignored && !BadTimestamp(rs[i])
  }

  // ----- The law -----

  // What becomes of a run: `fates[n]` is the request record that record n takes away, as its pair if n
  // is a response, over the capacity if n is a request.
  type Fates = seq<Option<nat>>

  // Request record i still waits when record n comes: it has not expired, and no record before n has
  // taken it away.
  ghost predicate Waiting(rs: seq<LogRecord>, fates: Fates, n: nat, i: nat)
    requires n < |rs| && n <= |fates|
  {
    && i < n && rs[i].kind == Request && rs[i].now >= rs[n].now - TTL
    && forall m :: 0 <= m < n ==> fates[m] != Some(i)
  }

  // A response suits requests of its key that are not later; to make room, any will do.
  predicate Suits(rs: seq<LogRecord>, n: nat, i: nat)
    requires n < |rs| && i < |rs|
  {
    rs[n].kind == Request || (rs[i].key == rs[n].key && Stamp(rs[i]) <= Stamp(rs[n]))
  }

  ghost predicate Takes(rs: seq<LogRecord>, fates: Fates, n: nat, i: nat)
    requires n < |rs| && n <= |fates|
  {
    && Waiting(rs, fates, n, i) && Suits(rs, n, i)
    && forall h :: 0 <= h < i ==> !(Waiting(rs, fates, n, h) && Suits(rs, n, h))
  }

  ghost function WaitingSet(rs: seq<LogRecord>, fates: Fates, n: nat): set<nat>
    requires n < |rs| && n <= |fates|
  {
    set i: nat | i < n && Waiting(rs, fates, n, i)
  }

  // A response takes the earliest waiting request that suits it, if any; a request takes the place of
  // the earliest waiting one, if 1,000 are waiting.
  ghost predicate Lawful(rs: seq<LogRecord>, fates: Fates, n: nat)
    requires n < |rs| && n < |fates|
  {
    && (fates[n].Some? ==> Takes(rs, fates, n, fates[n].value))
    && (fates[n].None? && rs[n].kind == Response ==>
          forall i: nat :: i < n ==> !(Waiting(rs, fates, n, i) && Suits(rs, n, i)))
    && (rs[n].kind == Request ==> (fates[n].Some? <==> |WaitingSet(rs, fates, n)| >= MAX_PENDING))
  }

  ghost predicate Law(rs: seq<LogRecord>, fates: Fates) {
    |fates| == |rs| && forall n :: 0 <= n < |rs| ==> Lawful(rs, fates, n)
  }

  // The law leaves no choice.
  lemma {:induction false} LawDecides(rs: seq<LogRecord>, a: Fates, b: Fates, n: nat)
    requires Plain(rs) && Law(rs, a) && Law(rs, b) && n <= |rs|
    ensures a[..n] == b[..n]
  {
    if n > 0 {
      LawDecides(rs, a, b, n - 1);
      var m := n - 1;
      SameWaiting(rs, a, b, m);
      assert Lawful(rs, a, m) && Lawful(rs, b, m);
      assert a[m] == b[m];
      assert a[..n] == a[..m] + [a[m]] && b[..n] == b[..m] + [b[m]];
    }
  }

  lemma SameWaiting(rs: seq<LogRecord>, a: Fates, b: Fates, n: nat)
    requires n < |rs| && n <= |a| && n <= |b| && a[..n] == b[..n]
    ensures forall i: nat :: Waiting(rs, a, n, i) <==> Waiting(rs, b, n, i)
    ensures WaitingSet(rs, a, n) == WaitingSet(rs, b, n)
  {
    assert forall m :: 0 <= m < n ==> a[m] == a[..n][m] && b[m] == b[..n][m];
  }

  // ----- What the records and their fates say the adapter did -----

  function Rank(rs: seq<LogRecord>, n: nat): nat
    requires n <= |rs|
  {
    if n == 0 then 0 else Rank(rs, n - 1) + if rs[n - 1].kind == Request then 1 else 0
  }

  // The waiting entry of request record i: its key, attributes, time and clock, and its number.
  function Entry(rs: seq<LogRecord>, i: nat): Pending
    requires i < |rs|
  {
    Pending(rs[i].key, rs[i].attrs, Stamp(rs[i]), rs[i].now, Rank(rs, i + 1))
  }

  // One entry for each request record, in order.
  function Added(rs: seq<LogRecord>, n: nat): seq<Pending>
    requires n <= |rs|
  {
    if n == 0 then [] else Added(rs, n - 1) + if rs[n - 1].kind == Request then [Entry(rs, n - 1)] else []
  }

  // One outcome for each response record, in order, with its pair.
  function Outcomes(rs: seq<LogRecord>, fates: Fates, n: nat): seq<Outcome>
    requires n <= |rs| && n <= |fates|
  {
    if n == 0 then []
    else
      Outcomes(rs, fates, n - 1) +
      if rs[n - 1].kind == Request then [] else [Outcome(rs[n - 1], EntryOf(rs, fates[n - 1]))]
  }

  function EntryOf(rs: seq<LogRecord>, fate: Option<nat>): Option<Pending> {
    if fate.Some? && fate.value < |rs| then Some(Entry(rs, fate.value)) else None
  }

  lemma {:induction false} RankGrows(rs: seq<LogRecord>, i: nat, j: nat)
    requires i <= j <= |rs|
    ensures Rank(rs, i) <= Rank(rs, j)
  {
    if i < j {
      RankGrows(rs, i, j - 1);
    }
  }

  lemma EntriesInOrder(rs: seq<LogRecord>, i: nat, j: nat)
    requires i < |rs| && j < |rs| && rs[i].kind == Request && rs[j].kind == Request
    ensures Entry(rs, i).order <= Entry(rs, j).order <==> i <= j
  {
    RankGrows(rs, i + 1, if i < j then j else i + 1);
    RankGrows(rs, j + 1, if j < i then i else j + 1);
  }

  // ----- The queue holds the waiting records -----

  // Record i is in the queue after the first n records: what is expired is only taken out when the next
  // record comes.
  ghost predicate Held(rs: seq<LogRecord>, fates: Fates, n: nat, i: nat)
    requires 0 < n <= |rs| && n <= |fates|
  {
    && i < n && rs[i].kind == Request && rs[i].now >= rs[n - 1].now - TTL
    && forall m :: 0 <= m < n ==> fates[m] != Some(i)
  }

  ghost predicate QueueIsHeld(rs: seq<LogRecord>, fates: Fates, n: nat, q: Queue)
    requires n <= |rs| && n <= |fates|
  {
    if n == 0 then q == []
    else forall p :: p in q <==> exists i: nat :: i < n && Held(rs, fates, n, i) && p == Entry(rs, i)
  }

  // The queue that record n finds, after what has expired is gone.
  ghost predicate QueueWaits(rs: seq<LogRecord>, fates: Fates, n: nat, q: Queue)
    requires n < |rs| && n <= |fates|
  {
    forall p :: p in q <==> exists i: nat :: i < n && Waiting(rs, fates, n, i) && p == Entry(rs, i)
  }

  lemma ExpiredGo(rs: seq<LogRecord>, fates: Fates, n: nat, q: Queue)
    requires n < |rs| && n <= |fates| && QueueIsHeld(rs, fates, n, q)
    requires n > 0 ==> rs[n - 1].now <= rs[n].now
    ensures QueueWaits(rs, fates, n, LogQueue.Expire(q, rs[n].now))
  {
    var alive := LogQueue.Expire(q, rs[n].now);
    FilterMembers(Alive(rs[n].now - TTL), q);
    forall p ensures p in alive <==> exists i: nat :: i < n && Waiting(rs, fates, n, i) && p == Entry(rs, i) {
      if p in alive {
        var i: nat :| i < n && Held(rs, fates, n, i) && p == Entry(rs, i);
        assert Alive(rs[n].now - TTL)(p);
        assert Waiting(rs, fates, n, i);
      }
      if i: nat :| i < n && Waiting(rs, fates, n, i) && p == Entry(rs, i) {
        assert Held(rs, fates, n, i);
        assert Alive(rs[n].now - TTL)(p);
      }
    }
  }

  lemma EntryWaits(rs: seq<LogRecord>, fates: Fates, n: nat, q: Queue, p: Pending) returns (i: nat)
    requires n < |rs| && n <= |fates| && QueueWaits(rs, fates, n, q) && p in q
    ensures i < n && Waiting(rs, fates, n, i) && p == Entry(rs, i)
  {
    i :| i < n && Waiting(rs, fates, n, i) && p == Entry(rs, i);
  }

  lemma WaitsInQueue(rs: seq<LogRecord>, fates: Fates, n: nat, q: Queue, i: nat)
    requires n < |rs| && n <= |fates| && QueueWaits(rs, fates, n, q) && Waiting(rs, fates, n, i)
    ensures Entry(rs, i) in q
  {
  }

  lemma {:induction false} QueueCounts(rs: seq<LogRecord>, q: Queue, waiting: set<nat>, nextOrder: nat, now: int)
    requires Ordered(q, nextOrder, now) && forall i :: i in waiting ==> i < |rs| && rs[i].kind == Request
    requires forall p :: p in q <==> exists i :: i in waiting && p == Entry(rs, i)
    ensures |q| == |waiting|
  {
    if q == [] {
      assert forall i :: i in waiting ==> Entry(rs, i) in q;
      assert waiting == {};
    } else {
      assert q[0] in q;
      var first :| first in waiting && q[0] == Entry(rs, first);
      forall p ensures p in q[1..] <==> exists i :: i in waiting - {first} && p == Entry(rs, i) {
        if p in q[1..] {
          assert p in q;
        }
        if i :| i in waiting - {first} && p == Entry(rs, i) {
          EntriesInOrder(rs, i, first);
          EntriesInOrder(rs, first, i);
          assert p in q && p != q[0];
        }
      }
      QueueCounts(rs, q[1..], waiting - {first}, nextOrder, now);
    }
  }

  lemma {:induction false} PopMembers(q: Queue, m: Pending -> bool, nextOrder: nat, now: int)
    requires Ordered(q, nextOrder, now) && First(m, q).Some?
    ensures forall p :: p in RemoveFirst(m, q) <==> p in q && p != First(m, q).value
  {
    assert q == [q[0]] + q[1..];
    if m(q[0]) {
      assert forall p :: p in q[1..] ==> p != q[0];
    } else {
      PopMembers(q[1..], m, nextOrder, now);
      RemoveFirstSplits(m, q[1..]);
    }
  }

  lemma ResponseFate(rs: seq<LogRecord>, fates: Fates, n: nat, q: Queue, nextOrder: nat) returns (fate: Option<nat>)
    requires n < |rs| && n <= |fates| && rs[n].kind == Response
    requires QueueWaits(rs, fates, n, q) && Ordered(q, nextOrder, rs[n].now)
    ensures fate.Some? ==> Takes(rs, fates, n, fate.value)
    ensures fate.None? ==> forall i: nat :: i < n ==> !(Waiting(rs, fates, n, i) && Suits(rs, n, i))
    ensures Popped(q, rs[n].key, Stamp(rs[n])) == if fate.Some? then Some(Entry(rs, fate.value)) else None
  {
    var m := Matches(rs[n].key, Stamp(rs[n]));
    RemoveFirstSplits(m, q);
    if First(m, q).Some? {
      FirstIsEarliest(q, m, nextOrder, rs[n].now);
      var i := EntryWaits(rs, fates, n, q, First(m, q).value);
      fate := Some(i);
      forall h | 0 <= h < i ensures !(Waiting(rs, fates, n, h) && Suits(rs, n, h)) {
        if Waiting(rs, fates, n, h) && Suits(rs, n, h) {
          WaitsInQueue(rs, fates, n, q, h);
          assert m(Entry(rs, h));
          EntriesInOrder(rs, i, h);
        }
      }
    } else {
      fate := None;
      forall i: nat | i < n ensures !(Waiting(rs, fates, n, i) && Suits(rs, n, i)) {
        if Waiting(rs, fates, n, i) {
          WaitsInQueue(rs, fates, n, q, i);
          assert !m(Entry(rs, i));
        }
      }
    }
  }

  lemma RequestFate(rs: seq<LogRecord>, fates: Fates, n: nat, q: Queue, nextOrder: nat) returns (fate: Option<nat>)
    requires n < |rs| && n <= |fates| && rs[n].kind == Request
    requires QueueWaits(rs, fates, n, q) && Ordered(q, nextOrder, rs[n].now)
    ensures fate.Some? <==> |q| >= MAX_PENDING
    ensures |q| == |WaitingSet(rs, fates, n)|
    ensures fate.Some? ==> Takes(rs, fates, n, fate.value) && q[0] == Entry(rs, fate.value)
  {
    QueueCounts(rs, q, WaitingSet(rs, fates, n), nextOrder, rs[n].now);
    fate := None;
    if |q| >= MAX_PENDING {
      var i := EntryWaits(rs, fates, n, q, q[0]);
      fate := Some(i);
      forall h | 0 <= h < i ensures !(Waiting(rs, fates, n, h) && Suits(rs, n, h)) {
        if Waiting(rs, fates, n, h) {
          WaitsInQueue(rs, fates, n, q, h);
          EntriesInOrder(rs, i, h);
        }
      }
    }
  }

  // What the queue holds after record n, if it was `q` after the expired had gone.
  lemma HeldAfter(rs: seq<LogRecord>, fates: Fates, n: nat, q: Queue, fate: Option<nat>, q': Queue)
    requires n < |rs| && n == |fates| && QueueWaits(rs, fates, n, q)
    requires forall m :: 0 <= m < n && fates[m].Some? ==> fates[m].value < m
    requires fate.Some? ==> Waiting(rs, fates, n, fate.value)
    requires forall p :: p in q' <==>
      || (p in q && !(fate.Some? && p == Entry(rs, fate.value)))
      || (rs[n].kind == Request && p == Entry(rs, n))
    ensures QueueIsHeld(rs, fates + [fate], n + 1, q')
  {
    var fates' := fates + [fate];
    assert forall m :: 0 <= m < n ==> fates'[m] == fates[m];
    forall i: nat | i <= n ensures Held(rs, fates', n + 1, i) <==>
      (i < n && Waiting(rs, fates, n, i) && fate != Some(i)) || (i == n && rs[n].kind == Request)
    {
      if i < n && Waiting(rs, fates, n, i) && fate != Some(i) {
        assert forall m :: 0 <= m < n + 1 ==> fates'[m] != Some(i);
      }
      if Held(rs, fates', n + 1, i) {
        assert fates'[n] != Some(i);
        assert forall m :: 0 <= m < n ==> fates[m] == fates'[m] != Some(i);
      }
    }
    forall p ensures p in q' <==> exists i: nat :: i < n + 1 && Held(rs, fates', n + 1, i) && p == Entry(rs, i) {
      HeldAfterOne(rs, fates, n, q, fate, q', p);
    }
  }

  lemma HeldAfterOne(rs: seq<LogRecord>, fates: Fates, n: nat, q: Queue, fate: Option<nat>, q': Queue, p: Pending)
    requires n < |rs| && n == |fates| && QueueWaits(rs, fates, n, q)
    requires fate.Some? ==> Waiting(rs, fates, n, fate.value)
    requires p in q' <==>
      || (p in q && !(fate.Some? && p == Entry(rs, fate.value)))
      || (rs[n].kind == Request && p == Entry(rs, n))
    requires forall i: nat | i <= n :: Held(rs, fates + [fate], n + 1, i) <==>
      (i < n && Waiting(rs, fates, n, i) && fate != Some(i)) || (i == n && rs[n].kind == Request)
    ensures p in q' <==> exists i: nat :: i < n + 1 && Held(rs, fates + [fate], n + 1, i) && p == Entry(rs, i)
  {
    if p in q' {
      if p in q && !(fate.Some? && p == Entry(rs, fate.value)) {
        var i := EntryWaits(rs, fates, n, q, p);
        assert Held(rs, fates + [fate], n + 1, i);
      } else {
        assert Held(rs, fates + [fate], n + 1, n);
      }
    }
    if i: nat :| i < n + 1 && Held(rs, fates + [fate], n + 1, i) && p == Entry(rs, i) {
      if i < n {
        WaitsInQueue(rs, fates, n, q, i);
        if fate.Some? {
          EntriesInOrder(rs, i, fate.value);
          EntriesInOrder(rs, fate.value, i);
        }
      }
    }
  }

  // ----- The whole run -----

  // The first n records and their fates account for what the adapter has done.
  ghost predicate Accounts(rs: seq<LogRecord>, fates: Fates, n: nat, log: Log) {
    && |fates| == n <= |rs| && (forall m :: 0 <= m < n ==> Lawful(rs, fates, m))
    && log.added == Added(rs, n) && log.nextOrder == Rank(rs, n) && log.outcomes == Outcomes(rs, fates, n)
    && !log.failed
  }

  // And for what it still holds.
  ghost predicate Explains(rs: seq<LogRecord>, fates: Fates, n: nat, log: Log) {
    Accounts(rs, fates, n, log) && QueueIsHeld(rs, fates, n, log.queue)
  }

  lemma LawfulBefore(rs: seq<LogRecord>, fates: Fates, fates': Fates, m: nat)
    requires m < |rs| && m < |fates| && m < |fates'| && fates'[..m + 1] == fates[..m + 1]
    ensures Lawful(rs, fates, m) <==> Lawful(rs, fates', m)
  {
    assert forall h :: 0 <= h <= m ==> fates[h] == fates[..m + 1][h] && fates'[h] == fates'[..m + 1][h];
    assert fates'[..m] == fates[..m];
    SameWaiting(rs, fates, fates', m);
  }

  lemma {:induction false} OutcomesBefore(rs: seq<LogRecord>, fates: Fates, fate: Option<nat>, n: nat)
    requires n <= |rs| && n <= |fates|
    ensures Outcomes(rs, fates + [fate], n) == Outcomes(rs, fates, n)
  {
    if n > 0 {
      OutcomesBefore(rs, fates, fate, n - 1);
    }
  }

  lemma LawNext(rs: seq<LogRecord>, fates: Fates, n: nat, fate: Option<nat>)
    requires n < |rs| && |fates| == n && rs[n].kind != Ignored && (forall m :: 0 <= m < n ==> Lawful(rs, fates, m))
    requires fate.Some? ==> Takes(rs, fates, n, fate.value)
    requires rs[n].kind == Response && fate.None? ==>
      forall i: nat :: i < n ==> !(Waiting(rs, fates, n, i) && Suits(rs, n, i))
    requires rs[n].kind == Request ==> (fate.Some? <==> |WaitingSet(rs, fates, n)| >= MAX_PENDING)
    ensures forall m :: 0 <= m <= n ==> Lawful(rs, fates + [fate], m)
  {
    var fates' := fates + [fate];
    forall m | 0 <= m < n ensures Lawful(rs, fates', m) {
      assert fates'[..m + 1] == fates[..m + 1];
      LawfulBefore(rs, fates, fates', m);
    }
    assert fates'[..n] == fates[..n];
    SameWaiting(rs, fates, fates', n);
  }

  lemma RequestExplained(rs: seq<LogRecord>, fates: Fates, n: nat, log: Log) returns (fate: Option<nat>)
    requires Plain(rs) && n < |rs| && Accounts(rs, fates, n, log) && rs[n].kind == Request
    requires QueueWaits(rs, fates, n, log.queue) && Ordered(log.queue, log.nextOrder, rs[n].now)
    ensures Explains(rs, fates + [fate], n + 1, QueueRequest(log, rs[n]))
  {
    fate := RequestFate(rs, fates, n, log.queue, log.nextOrder);
    OutcomesBefore(rs, fates, fate, n);
    AddMembers(log.queue, Entry(rs, n), log.nextOrder, rs[n].now);
    LawNext(rs, fates, n, fate);
    TakenBefore(rs, fates, n);
    HeldAfter(rs, fates, n, log.queue, fate, QueueRequest(log, rs[n]).queue);
  }

  lemma ResponseExplained(rs: seq<LogRecord>, fates: Fates, n: nat, log: Log) returns (fate: Option<nat>)
    requires Plain(rs) && n < |rs| && Accounts(rs, fates, n, log) && rs[n].kind == Response
    requires QueueWaits(rs, fates, n, log.queue) && Ordered(log.queue, log.nextOrder, rs[n].now)
    ensures Explains(rs, fates + [fate], n + 1, PairResponse(log, rs[n]))
  {
    fate := ResponseFate(rs, fates, n, log.queue, log.nextOrder);
    OutcomesBefore(rs, fates, fate, n);
    PopIsRemoval(log.queue, rs[n], log.nextOrder);
    LawNext(rs, fates, n, fate);
    TakenBefore(rs, fates, n);
    HeldAfter(rs, fates, n, log.queue, fate, PairResponse(log, rs[n]).queue);
  }

  // One record.
  lemma StepExplained(rs: seq<LogRecord>, fates: Fates, n: nat, log: Log) returns (fate: Option<nat>)
    requires Plain(rs) && n < |rs| && Explains(rs, fates, n, log) && (n > 0 ==> rs[n - 1].now <= rs[n].now)
    requires Ordered(LogQueue.Expire(log.queue, rs[n].now), log.nextOrder, rs[n].now)
    ensures Explains(rs, fates + [fate], n + 1, ProcessOne(log, rs[n]))
  {
    var aged := ExpireLog(log, rs[n]);
    ExpiredGo(rs, fates, n, log.queue);
    if rs[n].kind == Request {
      fate := RequestExplained(rs, fates, n, aged);
    } else {
      fate := ResponseExplained(rs, fates, n, aged);
    }
  }

  lemma TakenBefore(rs: seq<LogRecord>, fates: Fates, n: nat)
    requires n <= |rs| && |fates| == n && forall m :: 0 <= m < n ==> Lawful(rs, fates, m)
    ensures forall m :: 0 <= m < n && fates[m].Some? ==> fates[m].value < m
  {
    forall m | 0 <= m < n && fates[m].Some? ensures fates[m].value < m {
      assert Lawful(rs, fates, m);
    }
  }

  lemma AddMembers(q: Queue, incoming: Pending, nextOrder: nat, now: int)
    requires Ordered(q, nextOrder, now)
    ensures forall p :: p in Add(q, incoming) <==>
      (p in q && !(|q| >= MAX_PENDING && p == q[0])) || p == incoming
  {
    if |q| >= MAX_PENDING {
      assert q == [q[0]] + q[1..];
    }
  }

  lemma PopIsRemoval(q: Queue, r: LogRecord, nextOrder: nat)
    requires Ordered(q, nextOrder, r.now)
    ensures forall p :: p in Pop(q, r.key, Stamp(r)) <==> p in q && Popped(q, r.key, Stamp(r)) != Some(p)
  {
    RemoveFirstSplits(Matches(r.key, Stamp(r)), q);
    if Popped(q, r.key, Stamp(r)).Some? {
      PopMembers(q, Matches(r.key, Stamp(r)), nextOrder, r.now);
    }
  }

  lemma {:induction false} RunExplained(rs: seq<LogRecord>, n: nat, clock: int) returns (fates: Fates)
    requires Plain(rs) && Monotonic(clock, rs) && n <= |rs|
    ensures Explains(rs, fates, n, Process(Start([], 0), rs[..n]))
  {
    if n == 0 {
      fates := [];
    } else {
      fates := RunExplained(rs, n - 1, clock);
      var log := Process(Start([], 0), rs[..n - 1]);
      ProcessSound(Start([], 0), rs[..n - 1], clock);
      ExpireOrdered(log.queue, log.nextOrder, ClockAfter(clock, rs[..n - 1]), rs[n - 1].now);
      var fate := StepExplained(rs, fates, n - 1, log);
      assert rs[..n][..n - 1] == rs[..n - 1];
      fates := fates + [fate];
    }
  }

  // ----- Over any requests -----

  lemma {:induction false} ReachedPlain(records: seq<LogRecord>, clock: int)
    requires Monotonic(clock, records)
    ensures Plain(Reached(records)) && Monotonic(clock, Reached(records))
    ensures forall r :: r in Reached(records) ==> r.now <= ClockAfter(clock, records)
  {
    if records != [] {
      ReachedPlain(records[..|records| - 1], clock);
    }
  }

  lemma {:induction false} ReachedAllPlain(requests: seq<seq<LogRecord>>, clock: int)
    requires MonotonicAll(clock, requests)
    ensures Plain(ReachedAll(requests)) && Monotonic(clock, ReachedAll(requests))
    ensures clock <= ClockAfterAll(clock, requests)
    ensures forall r :: r in ReachedAll(requests) ==> r.now <= ClockAfterAll(clock, requests)
  {
    if requests != [] {
      var init := requests[..|requests| - 1];
      ReachedAllPlain(init, clock);
      ReachedPlain(requests[|requests| - 1], ClockAfterAll(clock, init));
    }
  }

  // Over any requests, failed ones included: every request record that was reached has been queued, as
  // it came and in that order, and every response got what the law gives it.
  lemma ServedByLaw(requests: seq<seq<LogRecord>>, clock: int)
    requires MonotonicAll(clock, requests)
    ensures var rs, log := ReachedAll(requests), Serve(Start([], 0), requests);
      && log.added == Added(rs, |rs|)
      && exists fates :: Law(rs, fates) && log.outcomes == Outcomes(rs, fates, |rs|)
  {
    var rs := ReachedAll(requests);
    ReachedAllPlain(requests, clock);
    ServeReached(requests);
    var fates := RunExplained(rs, |rs|, clock);
    assert rs[..|rs|] == rs;
    assert Law(rs, fates);
  }

  // Record i is a request of the response's key, not later, and not expired.
  predicate Fitting(rs: seq<LogRecord>, n: nat, i: nat)
    requires n < |rs|
  {
    && i < n && rs[i].kind == Request && rs[i].key == rs[n].key && Stamp(rs[i]) <= Stamp(rs[n])
    && rs[i].now >= rs[n].now - TTL
  }

  ghost predicate Gone(fates: Fates, n: nat, i: nat)
    requires n <= |fates|
  {
    exists m :: 0 <= m < n && fates[m] == Some(i)
  }

  // A response is paired with a request record if and only if that is the earliest fitting one which
  // no response, and no request for want of room, has taken before.
  lemma PairedIff(rs: seq<LogRecord>, fates: Fates, n: nat, i: nat)
    requires Plain(rs) && Law(rs, fates) && n < |rs| && rs[n].kind == Response
    ensures fates[n] == Some(i) <==>
      && Fitting(rs, n, i) && !Gone(fates, n, i)
      && (forall h :: 0 <= h < i && Fitting(rs, n, h) ==> Gone(fates, n, h))
  {
    assert Lawful(rs, fates, n);
    forall h: nat | h < n
      ensures Waiting(rs, fates, n, h) && Suits(rs, n, h) <==> Fitting(rs, n, h) && !Gone(fates, n, h)
    {
    }
    if Takes(rs, fates, n, i) && fates[n].Some? {
      assert Takes(rs, fates, n, fates[n].value);
    }
  }
}
