// The 1,024-entry cache of tool-call origins (internal/proxy/relay.go): a map of live entries, a
// slice recording the order of insertion, and the slot to overwrite next once the slice is full.
module RingCache {
  import opened Prelude

  const MAX_TOOL_CALLS := 1024

  datatype Ring<K(!new), V> = Ring(entries: map<K, V>, order: seq<K>, next: nat) {
    ghost predicate Valid() {
      && Distinct(order)
      && (forall k :: k in entries <==> k in order)
      && |order| <= MAX_TOOL_CALLS
      && next < MAX_TOOL_CALLS
      && (|order| < MAX_TOOL_CALLS ==> next == 0)
    }

    // Oldest entry first.
    function Fifo(): seq<K>
      requires next <= |order|
    {
      order[next..] + order[..next]
    }

    // One iteration of the loop in cacheToolCalls.
    function Put(key: K, value: V): Ring<K, V>
      requires next < MAX_TOOL_CALLS && (|order| < MAX_TOOL_CALLS ==> next == 0)
    {
      if key in entries then
        this.(entries := entries[key := value])
      else if |order| < MAX_TOOL_CALLS then
        Ring(entries[key := value], order + [key], next)
      else
        Ring((entries - {order[next]})[key := value], order[next := key], (next + 1) % MAX_TOOL_CALLS)
    }
  }

  function Empty<K(!new), V>(): Ring<K, V> {
    Ring(map[], [], 0)
  }

  // The reference: a queue of at most MAX_TOOL_CALLS distinct keys. A live key keeps its place; a
  // new one joins at the back and pushes out the front when the queue is full.
  function Enqueue<K(==,!new)>(queue: seq<K>, key: K): seq<K> {
    if key in queue then queue
    else if |queue| < MAX_TOOL_CALLS then queue + [key]
    else queue[1..] + [key]
  }

  // Overwriting the oldest slot of a full circular slice drops the front of the queue it stands
  // for and appends at the back.
  lemma EvictShifts<K(!new)>(order: seq<K>, next: nat, key: K)
    requires |order| == MAX_TOOL_CALLS && next < MAX_TOOL_CALLS && Distinct(order) && key !in order
    ensures Distinct(order[next := key])
    ensures var next' := (next + 1) % MAX_TOOL_CALLS;
      order[next := key][next'..] + order[next := key][..next'] == (order[next..] + order[..next])[1..] + [key]
    ensures forall k :: k in order[next := key] <==> k == key || (k in order && k != order[next])
  {
    var order' := order[next := key];
    assert order' == order[..next] + [key] + order[next + 1..];
    assert order == order[..next] + [order[next]] + order[next + 1..];
    forall k ensures k in order' <==> k == key || (k in order && k != order[next]) {
      if k in order && k != order[next] {
        var i :| 0 <= i < |order| && order[i] == k;
        assert order'[i] == k;
      }
    }
  }

  lemma FifoHasSameKeys<K(!new)>(order: seq<K>, next: nat)
    requires next <= |order|
    ensures forall k :: k in order <==> k in order[next..] + order[..next]
  {
    assert order == order[..next] + order[next..];
  }

  lemma EvictPut<K(!new), V>(ring: Ring<K, V>, key: K, value: V)
    requires ring.Valid() && key !in ring.entries && |ring.order| == MAX_TOOL_CALLS
    ensures ring.Put(key, value).Valid() && ring.Put(key, value).Fifo() == ring.Fifo()[1..] + [key]
  {
    EvictShifts(ring.order, ring.next, key);
  }

  lemma AppendPut<K(!new), V>(ring: Ring<K, V>, key: K, value: V)
    requires ring.Valid() && key !in ring.entries && |ring.order| < MAX_TOOL_CALLS
    ensures ring.Put(key, value).Valid() && ring.Put(key, value).Fifo() == ring.Fifo() + [key]
  {
    var order' := ring.Put(key, value).order;
    assert order'[|ring.order|] == key;
    assert ring.Fifo() == ring.order && ring.Put(key, value).Fifo() == order';
  }

  lemma PutIsEnqueue<K(!new), V>(ring: Ring<K, V>, key: K, value: V)
    requires ring.Valid()
    ensures ring.Put(key, value).Valid()
    ensures ring.Put(key, value).Fifo() == Enqueue(ring.Fifo(), key)
    ensures key in ring.Put(key, value).entries && ring.Put(key, value).entries[key] == value
    ensures forall k :: k in ring.Put(key, value).entries && k != key ==>
      k in ring.entries && ring.Put(key, value).entries[k] == ring.entries[k]
  {
    FifoHasSameKeys(ring.order, ring.next);
    if key !in ring.entries {
      if |ring.order| == MAX_TOOL_CALLS {
        EvictPut(ring, key, value);
      } else {
        AppendPut(ring, key, value);
      }
    }
  }

  function PutSeq<K(!new), V>(ring: Ring<K, V>, puts: seq<(K, V)>): Ring<K, V>
    requires ring.next < MAX_TOOL_CALLS && (|ring.order| < MAX_TOOL_CALLS ==> ring.next == 0)
    decreases |puts|
  {
    if puts == [] then ring else PutSeq(ring.Put(puts[0].0, puts[0].1), puts[1..])
  }

  function Keys<K(!new), V>(puts: seq<(K, V)>): seq<K> {
    seq(|puts|, i requires 0 <= i < |puts| => puts[i].0)
  }

  // The loop of cacheToolCalls over a whole map, visiting its keys in the order `visit`.
  function PutAll<K(!new), V>(ring: Ring<K, V>, values: map<K, V>, visit: seq<K>): Ring<K, V>
    requires forall k :: k in visit ==> k in values
    requires ring.next < MAX_TOOL_CALLS && (|ring.order| < MAX_TOOL_CALLS ==> ring.next == 0)
  {
    PutSeq(ring, seq(|visit|, i requires 0 <= i < |visit| => (visit[i], values[visit[i]])))
  }

  lemma {:induction false} PutSeqAppend<K(!new), V>(ring: Ring<K, V>, puts: seq<(K, V)>, last: (K, V))
    requires ring.Valid()
    ensures PutSeq(ring, puts).Valid()
    ensures PutSeq(ring, puts + [last]) == PutSeq(ring, puts).Put(last.0, last.1)
    decreases |puts|
  {
    if puts != [] {
      PutIsEnqueue(ring, puts[0].0, puts[0].1);
      PutSeqAppend(ring.Put(puts[0].0, puts[0].1), puts[1..], last);
      assert (puts + [last])[1..] == puts[1..] + [last];
    }
  }

  lemma PutAllAppend<K(!new), V>(ring: Ring<K, V>, values: map<K, V>, visit: seq<K>, key: K)
    requires ring.Valid() && key in values
    requires forall k :: k in visit ==> k in values
    ensures PutAll(ring, values, visit).Valid()
    ensures PutAll(ring, values, visit + [key]) == PutAll(ring, values, visit).Put(key, values[key])
  {
    var puts := seq(|visit|, i requires 0 <= i < |visit| => (visit[i], values[visit[i]]));
    var visit' := visit + [key];
    PutSeqAppend(ring, puts, (key, values[key]));
    assert seq(|visit'|, i requires 0 <= i < |visit'| => (visit'[i], values[visit'[i]])) == puts + [(key, values[key])];
  }

  // Caching a map keeps the ring well formed; every entry afterwards is one of `values` or an
  // entry the ring had before.
  lemma {:induction false} PutAllEntries<K(!new), V>(ring: Ring<K, V>, values: map<K, V>, visit: seq<K>)
    requires ring.Valid()
    requires forall k :: k in visit ==> k in values
    ensures PutAll(ring, values, visit).Valid()
    ensures forall k :: k in PutAll(ring, values, visit).entries ==>
      if k in visit then PutAll(ring, values, visit).entries[k] == values[k]
      else k in ring.entries && PutAll(ring, values, visit).entries[k] == ring.entries[k]
    decreases |visit|
  {
    if visit != [] {
      PutIsEnqueue(ring, visit[0], values[visit[0]]);
      var puts := seq(|visit|, i requires 0 <= i < |visit| => (visit[i], values[visit[i]]));
      var rest := visit[1..];
      assert puts[1..] == seq(|rest|, i requires 0 <= i < |rest| => (rest[i], values[rest[i]]));
      PutAllEntries(ring.Put(visit[0], values[visit[0]]), values, rest);
    }
  }

  // ----- The ring holds exactly the most recent insertions -----

  // The insertions that really happen when `keys` are put one after the other: those of keys that
  // are not live at that moment.
  function Insertions<K(==,!new)>(queue: seq<K>, keys: seq<K>): seq<K>
    decreases |keys|
  {
    if keys == [] then []
    else (if keys[0] in queue then [] else [keys[0]]) + Insertions(Enqueue(queue, keys[0]), keys[1..])
  }

  function Last<T>(xs: seq<T>, n: nat): seq<T> {
    if |xs| <= n then xs else xs[|xs| - n..]
  }

  // After any run of puts from an empty cache, the live keys in order of age are the last
  // min(n, 1024) of the n insertions made, however many puts overwrote live keys in between.
  lemma FifoIsLastInsertions<K(!new), V>(puts: seq<(K, V)>)
    ensures var ring := PutSeq(Empty<K, V>(), puts);
      ring.Valid() && ring.Fifo() == Last(Insertions([], Keys(puts)), MAX_TOOL_CALLS)
  {
    FifoFrom(Empty<K, V>(), [], puts);
  }

  lemma EnqueueExtendsLast<K(!new)>(log: seq<K>, key: K)
    ensures Enqueue(Last(log, MAX_TOOL_CALLS), key)
      == Last(log + (if key in Last(log, MAX_TOOL_CALLS) then [] else [key]), MAX_TOOL_CALLS)
  {
    if key in Last(log, MAX_TOOL_CALLS) {
      assert log + [] == log;
    }
  }

  lemma {:induction false} FifoFrom<K(!new), V>(ring: Ring<K, V>, log: seq<K>, puts: seq<(K, V)>)
    requires ring.Valid() && ring.Fifo() == Last(log, MAX_TOOL_CALLS)
    ensures PutSeq(ring, puts).Valid()
    ensures PutSeq(ring, puts).Fifo() == Last(log + Insertions(ring.Fifo(), Keys(puts)), MAX_TOOL_CALLS)
    decreases |puts|
  {
    if puts == [] {
      assert log + [] == log;
    } else {
      var key := puts[0].0;
      var log' := log + (if key in ring.Fifo() then [] else [key]);
      PutIsEnqueue(ring, key, puts[0].1);
      EnqueueExtendsLast(log, key);
      FifoFrom(ring.Put(key, puts[0].1), log', puts[1..]);
      InsertionsUnfold(log, ring.Fifo(), puts);
    }
  }

  lemma InsertionsUnfold<K(!new), V>(log: seq<K>, queue: seq<K>, puts: seq<(K, V)>)
    requires puts != []
    ensures log + Insertions(queue, Keys(puts))
      == (log + (if puts[0].0 in queue then [] else [puts[0].0])) + Insertions(Enqueue(queue, puts[0].0),
        Keys(puts[1..]))
  {
    assert Keys(puts)[0] == puts[0].0 && Keys(puts)[1..] == Keys(puts[1..]);
  }
}
