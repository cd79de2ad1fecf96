// Pairing GenAI request logs with response logs: the reference is one queue of pending requests in
// order of arrival (internal/otlp/logs.go).
module LogQueue {
  import opened Prelude
  import opened Seqs

  const MAX_PENDING := 1000
  const TTL := 600_000_000_000 // ten minutes in nanoseconds

  datatype Key = Key(resourceId: string, model: string)

  datatype Pending = Pending(key: Key, attrs: map<string, string>, time: int, insertedAt: int, order: nat)

  type Queue = seq<Pending>

  function HasKey(key: Key): Pending -> bool {
    (r: Pending) => r.key == key
  }

  function Matches(key: Key, time: int): Pending -> bool {
    (r: Pending) => r.key == key && r.time <= time
  }

  function Alive(cutoff: int): Pending -> bool {
    (r: Pending) => r.insertedAt >= cutoff
  }

  function Expired(cutoff: int): Pending -> bool {
    (r: Pending) => r.insertedAt < cutoff
  }

  // ----- The four operations on the one queue -----

  function Add(q: Queue, r: Pending): Queue {
    (if |q| >= MAX_PENDING then q[1..] else q) + [r]
  }

  function Expire(q: Queue, now: int): Queue {
    Filter(Alive(now - TTL), q)
  }

  function Pop(q: Queue, key: Key, time: int): Queue {
    RemoveFirst(Matches(key, time), q)
  }

  function Popped(q: Queue, key: Key, time: int): Option<Pending> {
    First(Matches(key, time), q)
  }

  // Arrival order, with the clock at `now` and `nextOrder` sequence numbers handed out.
  ghost predicate Ordered(q: Queue, nextOrder: nat, now: int) {
    && (forall i, j :: 0 <= i < j < |q| ==> q[i].order < q[j].order && q[i].insertedAt <= q[j].insertedAt)
    && (forall i :: 0 <= i < |q| ==> q[i].order <= nextOrder && q[i].insertedAt <= now)
  }

  // ----- The map of queues, one for each key -----

  type Buckets = map<Key, Queue>

  ghost predicate Represents(pending: Buckets, q: Queue) {
    forall key :: RepresentsAt(pending, q, key)
  }

  // A key is present exactly when it has pending records, and then holds them in arrival order.
  ghost predicate RepresentsAt(pending: Buckets, q: Queue, key: Key) {
    var bucket := Filter(HasKey(key), q);
    (key in pending <==> bucket != []) && (key in pending ==> pending[key] == bucket)
  }

  // Storing a bucket back the way the source does: an empty one is deleted.
  function Put(pending: Buckets, key: Key, bucket: Queue): Buckets {
    if bucket == [] then pending - {key} else pending[key := bucket]
  }

  lemma PutRepresents(pending: Buckets, q: Queue, q': Queue, key: Key, bucket: Queue)
    requires Represents(pending, q)
    requires bucket == Filter(HasKey(key), q')
    requires forall other :: other != key ==> Filter(HasKey(other), q') == Filter(HasKey(other), q)
    ensures Represents(Put(pending, key, bucket), q')
  {
    forall other ensures RepresentsAt(Put(pending, key, bucket), q', other) {
      assert RepresentsAt(pending, q, other);
    }
  }

  lemma AddRepresents(pending: Buckets, q: Queue, r: Pending)
    requires Represents(pending, q)
    ensures Represents(pending[r.key := (if r.key in pending then pending[r.key] else []) + [r]], q + [r])
  {
    assert RepresentsAt(pending, q, r.key);
    forall key ensures Filter(HasKey(key), q + [r]) == Filter(HasKey(key), q) + (if key == r.key then [r] else []) {
      FilterAppend(HasKey(key), q, [r]);
      assert Filter(HasKey(key), [r]) == if key == r.key then [r] else [];
    }
    PutRepresents(pending, q, q + [r], r.key, Filter(HasKey(r.key), q) + [r]);
  }

  lemma PopRepresents(pending: Buckets, q: Queue, key: Key, time: int)
    requires Represents(pending, q) && key in pending
    ensures Popped(q, key, time) == First(Matches(key, time), pending[key])
    ensures Represents(Put(pending, key, RemoveFirst(Matches(key, time), pending[key])), Pop(q, key, time))
  {
    assert RepresentsAt(pending, q, key);
    FilterRemoveFirst(HasKey(key), Matches(key, time), q);
    forall other | other != key ensures Filter(HasKey(other), Pop(q, key, time)) == Filter(HasKey(other), q) {
      FilterRemoveOther(HasKey(other), Matches(key, time), q);
    }
    PutRepresents(pending, q, Pop(q, key, time), key, RemoveFirst(Matches(key, time), pending[key]));
  }

  lemma PopAbsent(pending: Buckets, q: Queue, key: Key, time: int)
    requires Represents(pending, q) && key !in pending
    ensures Popped(q, key, time) == None && Pop(q, key, time) == q
  {
    assert RepresentsAt(pending, q, key);
    FilterMembers(HasKey(key), q);
    forall i | 0 <= i < |q| ensures !Matches(key, time)(q[i]) {
      assert q[i] in q;
    }
    NoMatch(Matches(key, time), q);
  }

  // The head of the whole queue heads its bucket.
  lemma HeadOfBucket(pending: Buckets, q: Queue)
    requires Represents(pending, q) && q != []
    ensures q[0].key in pending && pending[q[0].key] != [] && pending[q[0].key][0] == q[0]
    ensures Represents(Put(pending, q[0].key, pending[q[0].key][1..]), q[1..])
  {
    var key := q[0].key;
    assert RepresentsAt(pending, q, key);
    assert pending[key][1..] == Filter(HasKey(key), q[1..]);
    forall other | other != key ensures Filter(HasKey(other), q[1..]) == Filter(HasKey(other), q) {
      assert [] + Filter(HasKey(other), q[1..]) == Filter(HasKey(other), q);
    }
    PutRepresents(pending, q, q[1..], key, pending[key][1..]);
  }

  lemma BucketMembers(pending: Buckets, q: Queue, key: Key)
    requires Represents(pending, q) && key in pending
    ensures pending[key] != [] && pending[key][0] in q
  {
    assert RepresentsAt(pending, q, key);
    FilterMembers(HasKey(key), q);
  }

  // ----- Expiry, one bucket after the other -----

  // What is left when the buckets in `done` have been swept.
  function Kept(done: set<Key>, cutoff: int): Pending -> bool {
    (r: Pending) => r.key in done ==> r.insertedAt >= cutoff
  }

  ghost predicate Aged(q: Queue) {
    forall i, j :: 0 <= i < j < |q| ==> q[i].insertedAt <= q[j].insertedAt
  }

  lemma {:induction false} FilterAged(p: Pending -> bool, q: Queue)
    requires Aged(q)
    ensures Aged(Filter(p, q))
  {
    if q != [] {
      FilterAged(p, q[1..]);
      FilterMembers(p, q[1..]);
      forall i | 0 <= i < |Filter(p, q[1..])| ensures q[0].insertedAt <= Filter(p, q[1..])[i].insertedAt {
        assert Filter(p, q[1..])[i] in q[1..];
      }
    }
  }

  // In an aged bucket the expired records are a prefix.
  lemma AlivePrefix(bucket: Queue, cutoff: int, first: nat)
    requires Aged(bucket) && first <= |bucket|
    requires forall i :: 0 <= i < first ==> bucket[i].insertedAt < cutoff
    requires first < |bucket| ==> bucket[first].insertedAt >= cutoff
    ensures Filter(Alive(cutoff), bucket) == bucket[first..]
  {
    FilterSuffix(Alive(cutoff), bucket, first);
  }

  // Storing a bucket back as it was.
  lemma PutSame(pending: Buckets, q: Queue, key: Key)
    requires Represents(pending, q) && key in pending
    ensures Put(pending, key, pending[key]) == pending
  {
    assert RepresentsAt(pending, q, key);
    assert pending[key := pending[key]] == pending;
  }

  // Sweeping one more bucket.
  lemma SweepBucket(pending: Buckets, q: Queue, done: set<Key>, key: Key, cutoff: int)
    requires key !in done && key in pending
    requires Represents(pending, Filter(Kept(done, cutoff), q))
    ensures var bucket := Filter(Alive(cutoff), pending[key]); var q' := Filter(Kept(done + {key}, cutoff), q);
      && Represents(Put(pending, key, bucket), q')
      && |q'| + |pending[key]| == |Filter(Kept(done, cutoff), q)| + |bucket|
  {
    var kept := Filter(Kept(done, cutoff), q);
    var step := Kept({key}, cutoff);
    assert RepresentsAt(pending, kept, key);
    FilterFilter(step, Kept(done, cutoff), Kept(done + {key}, cutoff), q);
    var q' := Filter(step, kept);
    SweepOnly(kept, key, cutoff);
    PutRepresents(pending, kept, q', key, Filter(Alive(cutoff), pending[key]));
  }

  lemma {:induction false} SweepOnly(q: Queue, key: Key, cutoff: int)
    ensures var q' := Filter(Kept({key}, cutoff), q); var bucket := Filter(HasKey(key), q);
      && Filter(HasKey(key), q') == Filter(Alive(cutoff), bucket)
      && |q'| + |bucket| == |q| + |Filter(Alive(cutoff), bucket)|
      && forall other :: other != key ==> Filter(HasKey(other), q') == Filter(HasKey(other), q)
  {
    if q != [] {
      SweepOnly(q[1..], key, cutoff);
      var r, q' := q[0], Filter(Kept({key}, cutoff), q[1..]);
      assert ([r] + q')[1..] == q' && [] + q' == q';
      var bucket := Filter(HasKey(key), q[1..]);
      assert ([r] + bucket)[1..] == bucket && [] + bucket == bucket;
    }
  }

  lemma SweptAll(pending: Buckets, q: Queue, done: set<Key>, cutoff: int)
    requires forall r :: r in q ==> r.key in done
    ensures Filter(Kept(done, cutoff), q) == Filter(Alive(cutoff), q)
  {
    forall i | 0 <= i < |q| ensures Kept(done, cutoff)(q[i]) <==> Alive(cutoff)(q[i]) {
      assert q[i] in q;
    }
    FilterSame(Kept(done, cutoff), Alive(cutoff), q);
  }

  lemma SweptNone(q: Queue, cutoff: int)
    ensures Filter(Kept({}, cutoff), q) == q
  {
    FilterAll(Kept({}, cutoff), q);
  }
}
